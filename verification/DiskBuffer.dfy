/** The coordination of segments/input/diskbuffer/diskbuffer.go as a step system: one decider, rounds of
    workers that read or write files, watchdogs, the goroutine that forwards the memory buffer, one wait group
    and stop channels that are closed once. The fill level of the memory buffer is part of the state. Arriving
    flows, the contents of cache files, elapsing timers and the next segment are the environment: where the code
    depends on them, any outcome can happen. */
module DiskBuffer {

  /** Marks are percentages of the capacity. */
  datatype Config = Config(capacity: nat, high: nat, low: nat, reading: nat, cacheRoom: bool, batchSize: nat)
  {
    /** What New accepts: marks in order, and a low mark of at least one message. */
    predicate Valid() {
      reading <= low <= high && Mark(low) > 0
    }

    function Mark(percent: nat): nat {
      percent * capacity / 100
    }
  }

  // ---------------------------------------------------------------------------------------------
  // One round of workers

  datatype Kind = Write | FinalWrite | Read

  /** A watchdog: at its select, past it and about to look at the fill level, about to close its stop channel,
      about to call Done, or gone. */
  datatype Watchdog = Missing | Watching | Looking | Tripping | Leaving | Left

  /** What WriteToDisk or ReadFromDisk does next. Busy waits for a line read from disk and Holding has one;
      Offering offers its message to the next segment for a while, and Committed waits for room in the memory
      buffer instead. Working writes to a file; then come the deferred calls, last deferred first. */
  datatype Phase =
    | Spawned | Busy | Holding | Offering | Committed | Working
    | Flushing | ClosingEncoder | ClosingFile | Releasing | ClosingWatchdogs | Ended

  /** The goroutine inside ReadFromDisk that reads and removes the cache files: about to start, between two
      files, in a file with some lines left, in a file whose reading error never goes away, or finished. */
  datatype Scanner =
    NotStarted(files: nat) | Between(files: nat) | InFile(lines: nat, files: nat) | Failing | Finished

  /** Lines on their way to a file: handed to the writer, held by it, held by the encoder, in the file. */
  datatype File = File(open: bool, encoding: bool, written: nat, buffered: nat, encoded: nat, stored: nat)

  function NoFile(): File {
    File(false, false, 0, 0, 0, 0)
  }

  datatype Round = Round(
    kind: Kind,
    low: Watchdog,
    high: Watchdog,
    scanner: Scanner,
    body: Phase,
    file: File,
    stops: nat,        // closes of StopWritingToDisk or StopReadingFromDisk
    emergencies: nat,  // closes of EmergencyStopReadingFromDisk
    scans: nat,        // closes of fromReader
    signals: nat)      // closes of StopWatchdogs

  function Fresh(kind: Kind, files: nat): Round {
    Round(kind, if kind.FinalWrite? then Missing else Watching, if kind.Read? then Watching else Missing,
          NotStarted(files), Spawned, NoFile(), 0, 0, 0, 0)
  }

  datatype Work =
    | LookLow | SeeLowMark | SleepLow | CloseStop | HeedLow | LowDone
    | LookHigh | SeeHighMark | SleepHigh | SeeStop | CloseEmergency | HeedHigh | HighDone
    | OpenFile(lines: nat) | SkipFile | EndFile | EndScan | FileFails | Retry
    | Begin | TakeLine | SeeEmergency | Parse(parses: bool) | GiveOut | TimeOut | Push
    | WriteLine | Spill | Store
    | Return | Flush | CloseEncoder | CloseFile | BodyDone | CloseWatchdogs

  /** The goroutine that forwards the memory buffer to the next segment: at its select, receiving from the
      buffer, sending to the next segment, or over. */
  datatype Forwarder = AtSelect | AtReceive | AtSend | Over

  /** What the workers see around them: the fill level, and which channels the end of the input has closed:
      StopDecider is closed after StopWritingNextSegment. */
  datatype Around = Around(cfg: Config, fill: nat, stopped: bool, halted: bool, forwarder: Forwarder)
  {
    predicate Valid() {
      cfg.Valid() && fill <= cfg.capacity && (stopped || forwarder.Over? ==> halted)
    }
  }

  lemma RoomInBuffer(cfg: Config)
    requires cfg.Valid()
    ensures cfg.capacity > 0
  {
    assert cfg.capacity == 0 ==> cfg.low * cfg.capacity == 0;
  }

  /** The forwarding goroutine is not waiting for a message in an empty buffer. */
  predicate CanForward(a: Around) {
    match a.forwarder
    case AtSelect => true
    case AtReceive => a.fill > 0
    case AtSend => true
    case Over => false
  }

  function Forwarded(a: Around): Around {
    match a.forwarder
    case AtSelect => a.(forwarder := if a.halted then Over else AtReceive)
    case AtReceive => a.(forwarder := AtSend, fill := if a.fill > 0 then a.fill - 1 else 0)
    case AtSend => a.(forwarder := AtSelect)
    case Over => a
  }

  predicate LowMarkCrossed(r: Round, a: Around) {
    if r.kind.Read? then a.fill > a.cfg.Mark(a.cfg.low) else a.fill < a.cfg.Mark(a.cfg.low)
  }

  predicate HighMarkCrossed(a: Around) {
    a.fill > a.cfg.Mark(a.cfg.high)
  }

  /** Whether a worker of the round can take the step. A select reaches its default case only while no
      channel of its other cases is closed. */
  predicate CanWork(r: Round, w: Work, a: Around) {
    match w
    case LookLow => r.low.Watching? && r.signals == 0 && (r.kind.Read? || !a.stopped)
    case SeeLowMark => r.low.Looking? && LowMarkCrossed(r, a)
    case SleepLow => r.low.Looking? && !LowMarkCrossed(r, a)
    case CloseStop => r.low.Tripping?
    case HeedLow => r.low.Watching? && r.signals > 0
    case LowDone => r.low.Leaving?
    case LookHigh => r.high.Watching? && r.signals == 0 && !a.stopped
    case SeeHighMark => r.high.Looking? && HighMarkCrossed(a)
    case SleepHigh => r.high.Looking? && !HighMarkCrossed(a)
    case SeeStop => r.high.Watching? && a.stopped
    case CloseEmergency => r.high.Tripping?
    case HeedHigh => r.high.Watching? && r.signals > 0
    case HighDone => r.high.Leaving?
    case OpenFile(_) => r.scanner.Between? && r.scanner.files > 0
    case SkipFile => r.scanner.Between? && r.scanner.files > 0
    case EndFile => r.scanner.InFile? && r.scanner.lines == 0
    case EndScan => r.scanner.Between? && r.scanner.files == 0
    case FileFails => r.scanner.InFile?
    case Retry => r.scanner.Failing?
    case Begin => r.body.Spawned?
    case TakeLine => r.body.Busy? && HasLine(r)
    case SeeEmergency => r.body.Holding? && r.emergencies > 0
    case Parse(_) => r.body.Holding? && r.emergencies == 0
    case GiveOut => r.body.Offering?
    case TimeOut => r.body.Offering?
    case Push => r.body.Committed? && a.fill < a.cfg.capacity
    case WriteLine => r.body.Working? && if r.kind.Read? then HasLine(r) else a.fill > 0 && a.cfg.batchSize > 0
    case Spill => r.file.encoding && r.file.buffered > 0
    case Store => r.file.open && r.file.encoding && r.file.encoded > 0
    case Return => MayReturn(r, a)
    case Flush => r.body.Flushing?
    case CloseEncoder => r.body.ClosingEncoder?
    case CloseFile => r.body.ClosingFile?
    case BodyDone => r.body.Releasing?
    case CloseWatchdogs => r.body.ClosingWatchdogs?
  }

  predicate HasLine(r: Round) {
    r.scanner.InFile? && r.scanner.lines > 0
  }

  /** A reader returns once fromReader is closed. A writer returns if it is told to stop, or if it looks for
      a message, which it does batchSize times in a row, and finds the buffer empty. */
  predicate MayReturn(r: Round, a: Around) {
    if r.kind.Read? then (r.body.Busy? || r.body.Working?) && r.scanner.Finished?
    else r.body.Working? && (r.stops > 0 || (a.fill == 0 && a.cfg.batchSize > 0))
  }

  function OneLineLess(c: Scanner): Scanner {
    if c.InFile? && c.lines > 0 then c.(lines := c.lines - 1) else c
  }

  function OneFileLess(c: Scanner): nat {
    if c.Between? && c.files > 0 then c.files - 1 else 0
  }

  /** Flushing into a closed encoder, or closing the encoder on a closed file, would lose lines. */
  function Worked(r: Round, w: Work): Round {
    var f := r.file;
    match w
    case LookLow => r.(low := Looking)
    case SeeLowMark => r.(low := Tripping)
    case SleepLow => r.(low := Watching)
    case CloseStop => r.(low := Leaving, stops := r.stops + 1)
    case HeedLow => r.(low := Leaving)
    case LowDone => r.(low := Left)
    case LookHigh => r.(high := Looking)
    case SeeHighMark => r.(high := Tripping)
    case SleepHigh => r.(high := Watching)
    case SeeStop => r.(high := Tripping)
    case CloseEmergency => r.(high := Leaving, emergencies := r.emergencies + 1)
    case HeedHigh => r.(high := Leaving)
    case HighDone => r.(high := Left)
    case OpenFile(lines) => r.(scanner := InFile(lines, OneFileLess(r.scanner)))
    case SkipFile => r.(scanner := Between(OneFileLess(r.scanner)))
    case EndFile =>
      if r.stops > 0 || r.emergencies > 0 then r.(scanner := Finished, scans := r.scans + 1)
      else r.(scanner := Between(if r.scanner.InFile? then r.scanner.files else 0))
    case EndScan => r.(scanner := Finished, scans := r.scans + 1)
    case FileFails => r.(scanner := Failing)
    case Retry => r
    case Begin =>
      if r.kind.Read? then r.(body := Busy, scanner := Between(if r.scanner.NotStarted? then r.scanner.files else 0))
      else r.(body := Working, file := f.(open := true, encoding := true))
    case TakeLine => r.(body := Holding, scanner := OneLineLess(r.scanner))
    case SeeEmergency => r.(body := Working, file := f.(open := true, encoding := true))
    case Parse(parses) => r.(body := if parses then Offering else Busy)
    case GiveOut => r.(body := Busy)
    case TimeOut => r.(body := Committed)
    case Push => r.(body := Busy)
    case WriteLine =>
      r.(file := f.(written := f.written + 1, buffered := f.buffered + 1),
         scanner := if r.kind.Read? then OneLineLess(r.scanner) else r.scanner)
    case Spill => r.(file := f.(buffered := 0, encoded := f.encoded + f.buffered))
    case Store => r.(file := f.(encoded := 0, stored := f.stored + f.encoded))
    case Return => r.(body := if r.body.Busy? then Releasing else Flushing)
    case Flush =>
      var flushed := if f.encoding then f.encoded + f.buffered else f.encoded;
      r.(body := ClosingEncoder, file := f.(buffered := 0, encoded := flushed))
    case CloseEncoder =>
      r.(body := ClosingFile,
         file := f.(encoding := false, encoded := 0, stored := if f.open then f.stored + f.encoded else f.stored))
    case CloseFile => r.(body := Releasing, file := f.(open := false))
    case BodyDone => r.(body := ClosingWatchdogs)
    case CloseWatchdogs => r.(body := Ended, signals := r.signals + 1)
  }

  /** A writer takes its lines from the buffer; a reader can put its lines there. */
  function FillAfter(r: Round, w: Work, fill: nat): nat {
    if w.WriteLine? && !r.kind.Read? && fill > 0 then fill - 1
    else if w.Push? then fill + 1
    else fill
  }

  /** Steps that call Done on the wait group. */
  predicate IsDone(w: Work) {
    w.LowDone? || w.HighDone? || w.BodyDone?
  }

  function Busyness(w: Watchdog): nat {
    if w.Missing? || w.Left? then 0 else 1
  }

  /** How many workers of a round have not called Done yet. */
  function Undone(r: Round): nat {
    Busyness(r.low) + Busyness(r.high) + if r.body.ClosingWatchdogs? || r.body.Ended? then 0 else 1
  }

  /** Cache files of this round are being read, or a file is open for writing. */
  predicate FileWork(r: Round) {
    Scanning(r) || r.file.open || r.file.encoding
  }

  predicate Scanning(r: Round) {
    r.scanner.Between? || r.scanner.InFile? || r.scanner.Failing?
  }

  predicate Returned(r: Round) {
    !r.body.Spawned? && !InLoop(r) && !r.body.Working?
  }

  /** A reader that hands on the lines of the cache files. */
  predicate InLoop(r: Round) {
    r.body.Busy? || r.body.Holding? || r.body.Offering? || r.body.Committed?
  }

  /** Every line handed to a writer has reached its file, and the file is closed. */
  predicate Saved(f: File) {
    f.stored == f.written && !f.open && !f.encoding
  }

  predicate RoundInv(r: Round) {
    && (r.low.Missing? <==> r.kind.FinalWrite?) && (!r.high.Missing? <==> r.kind.Read?)
    && r.stops <= 1 && (!r.low.Leaving? && !r.low.Left? ==> r.stops == 0)
    && (r.low.Leaving? || r.low.Left? ==> r.stops > 0 || r.signals > 0)
    && r.emergencies <= 1 && (!r.high.Leaving? && !r.high.Left? ==> r.emergencies == 0)
    && r.signals == (if r.body.Ended? then 1 else 0)
    && r.scans == (if r.scanner.Finished? then 1 else 0)
    && (InLoop(r) ==> r.kind.Read?)
    && (if r.kind.Read? then (r.scanner.NotStarted? <==> r.body.Spawned?) else r.scanner.NotStarted?)
    && (r.kind.Read? && Returned(r) ==> r.scanner.Finished?)
    && FileInv(r)
  }

  predicate FileInv(r: Round) {
    && r.file.written == r.file.buffered + r.file.encoded + r.file.stored
    && (r.file.open <==> r.body.Working? || r.body.Flushing? || r.body.ClosingEncoder? || r.body.ClosingFile?)
    && (r.file.encoding <==> r.body.Working? || r.body.Flushing? || r.body.ClosingEncoder?)
    && (!r.body.Working? && !r.body.Flushing? ==> r.file.buffered == 0)
    && (!r.file.encoding ==> r.file.encoded == 0)
  }

  predicate IsWatchWork(w: Work) {
    || w.LookLow? || w.SeeLowMark? || w.SleepLow? || w.CloseStop? || w.HeedLow? || w.LowDone?
    || w.LookHigh? || w.SeeHighMark? || w.SleepHigh? || w.SeeStop? || w.CloseEmergency? || w.HeedHigh? || w.HighDone?
  }

  lemma WatchKeepsInv(r: Round, w: Work, a: Around)
    requires RoundInv(r) && CanWork(r, w, a) && IsWatchWork(w)
    ensures RoundInv(Worked(r, w))
    ensures Undone(Worked(r, w)) == Undone(r) - if IsDone(w) then 1 else 0
  {
    assert Worked(r, w).file == r.file && Worked(r, w).body == r.body;
    hide FileInv;
    FileInvKept(r, Worked(r, w));
  }

  lemma FileInvKept(r: Round, t: Round)
    requires FileInv(r) && t.file == r.file && t.body == r.body
    ensures FileInv(t)
  {
  }

  lemma FileWorkKeepsInv(r: Round, w: Work, a: Around)
    requires RoundInv(r) && CanWork(r, w, a) && !IsWatchWork(w)
    ensures FileInv(Worked(r, w))
  {
  }

  lemma BodyKeepsInv(r: Round, w: Work, a: Around)
    requires RoundInv(r) && CanWork(r, w, a) && !IsWatchWork(w)
    ensures RoundInv(Worked(r, w))
    ensures Undone(Worked(r, w)) == Undone(r) - if IsDone(w) then 1 else 0
  {
    hide FileInv;
    FileWorkKeepsInv(r, w, a);
  }

  /** Every worker step keeps the round's invariant; the number of unfinished workers falls at a Done only. */
  lemma WorkKeepsInv(r: Round, w: Work, a: Around)
    requires RoundInv(r) && CanWork(r, w, a)
    ensures RoundInv(Worked(r, w))
    ensures Undone(Worked(r, w)) == Undone(r) - if IsDone(w) then 1 else 0
  {
    hide RoundInv, CanWork, Worked, Undone;
    if IsWatchWork(w) {
      WatchKeepsInv(r, w, a);
    } else {
      BodyKeepsInv(r, w, a);
    }
  }

  // ---------------------------------------------------------------------------------------------
  // The decider and all rounds

  /** Where the decider stands; then says whether the same turn goes on to write. */
  datatype Place =
    | LoopHead | Deciding   // at the select, or past it and about to look at the fill level
    | BeforeRead(then_: bool) | LaunchRead(then_: bool) | AfterRead(then_: bool)
    | BeforeWrite | LaunchWrite | AfterWrite
    | LaunchFinal | AfterFinal
    | Gone

  datatype System = System(
    cfg: Config,
    place: Place,
    waitGroup: int,       // a negative counter would be a panic
    rounds: seq<Round>,   // oldest first
    halts: nat,           // closes of StopWritingNextSegment
    stops: nat,           // closes of StopDecider
    fill: nat,            // messages in the memory buffer
    forwarder: Forwarder)

  datatype Step =
    | Arrive                            // a flow enters the memory buffer
    | Forward                           // a step of the forwarding goroutine
    | Halt | CloseDecider               // the input has ended
    | Choose                            // the decider's default case
    | Turn(cached: bool)                // cached says whether there are cache files
    | TurnFinal
    | Proceed                           // a Wait of the decider returns
    | Launch(files: nat)
    | Do(i: nat, work: Work)

  function Start(cfg: Config): System {
    System(cfg, LoopHead, 0, [], 0, 0, 0, AtSelect)
  }

  function AroundOf(s: System): Around {
    Around(s.cfg, s.fill, s.stops > 0, s.halts > 0, s.forwarder)
  }

  function Size(k: Kind): nat {
    match k
    case Write => 2
    case FinalWrite => 1
    case Read => 3
  }

  predicate Waits(p: Place) {
    p.BeforeRead? || p.AfterRead? || p.BeforeWrite? || p.AfterWrite? || p.AfterFinal?
  }

  predicate Launches(p: Place) {
    p.LaunchRead? || p.LaunchWrite? || p.LaunchFinal?
  }

  function Launched(p: Place): Kind
    requires Launches(p)
  {
    if p.LaunchRead? then Read else if p.LaunchWrite? then Write else FinalWrite
  }

  function Awaiting(p: Place): Place
    requires Launches(p)
  {
    match p
    case LaunchRead(t) => AfterRead(t)
    case LaunchWrite => AfterWrite
    case _ => AfterFinal
  }

  predicate Enabled(s: System, e: Step) {
    match e
    case Arrive => s.halts == 0 && s.fill < s.cfg.capacity
    case Forward => CanForward(AroundOf(s))
    case Halt => s.halts == 0
    case CloseDecider => s.halts > 0 && s.stops == 0
    case Choose => s.place.LoopHead? && s.stops == 0
    case Turn(_) => s.place.Deciding?
    case TurnFinal => s.place.LoopHead? && s.stops > 0
    case Proceed => Waits(s.place) && s.waitGroup == 0
    case Launch(_) => Launches(s.place)
    case Do(i, w) => i < |s.rounds| && CanWork(s.rounds[i], w, AroundOf(s))
  }

  /** One turn of the loop looks at the fill level once. */
  function Turned(s: System, cached: bool): System {
    var read := s.fill < s.cfg.Mark(s.cfg.reading) && cached;
    var write := s.fill > s.cfg.Mark(s.cfg.high) && s.cfg.cacheRoom;
    s.(place := if read then BeforeRead(write) else if write then BeforeWrite else LoopHead)
  }

  /** After a Wait and the Add that follows it, if any. */
  function Proceeded(s: System): System
    requires Waits(s.place)
  {
    match s.place
    case BeforeRead(t) => s.(place := LaunchRead(t), waitGroup := s.waitGroup + 3)
    case AfterRead(t) => s.(place := if t then BeforeWrite else LoopHead)
    case BeforeWrite => s.(place := LaunchWrite, waitGroup := s.waitGroup + 2)
    case AfterWrite => s.(place := LoopHead)
    case AfterFinal => s.(place := Gone)
  }

  function Done(s: System, i: nat, w: Work): System
    requires i < |s.rounds|
  {
    s.(rounds := s.rounds[i := Worked(s.rounds[i], w)],
       waitGroup := if IsDone(w) then s.waitGroup - 1 else s.waitGroup,
       fill := FillAfter(s.rounds[i], w, s.fill))
  }

  function Next(s: System, e: Step): System
    requires Enabled(s, e)
  {
    match e
    case Arrive => s.(fill := s.fill + 1)
    case Forward => var a := Forwarded(AroundOf(s)); s.(fill := a.fill, forwarder := a.forwarder)
    case Halt => s.(halts := s.halts + 1)
    case CloseDecider => s.(stops := s.stops + 1)
    case Choose => s.(place := Deciding)
    case Turn(cached) => Turned(s, cached)
    case TurnFinal => s.(place := LaunchFinal, waitGroup := s.waitGroup + 1)
    case Proceed => Proceeded(s)
    case Launch(files) => s.(rounds := s.rounds + [Fresh(Launched(s.place), files)], place := Awaiting(s.place))
    case Do(i, w) => Done(s, i, w)
  }

  function TotalUndone(rounds: seq<Round>): nat {
    if rounds == [] then 0 else TotalUndone(rounds[..|rounds| - 1]) + Undone(rounds[|rounds| - 1])
  }

  function Announced(p: Place): nat {
    if Launches(p) then Size(Launched(p)) else 0
  }

  /** The decider waits for the round it launched last. */
  predicate Supervises(p: Place) {
    p.AfterRead? || p.AfterWrite? || p.AfterFinal?
  }

  predicate Inv(s: System) {
    && s.halts <= 1 && s.stops <= 1 && (s.stops > 0 || s.forwarder.Over? ==> s.halts > 0)
    && s.fill <= s.cfg.capacity
    && s.waitGroup == TotalUndone(s.rounds) + Announced(s.place)
    && (forall i :: 0 <= i < |s.rounds| ==> RoundInv(s.rounds[i]))
    && (forall i :: 0 <= i < |s.rounds| - 1 ==> Undone(s.rounds[i]) == 0)
    && (!Supervises(s.place) && s.rounds != [] ==> Undone(s.rounds[|s.rounds| - 1]) == 0)
    && (Supervises(s.place) ==> s.rounds != [])
  }

  lemma {:induction false} TotalAfterUpdate(rounds: seq<Round>, i: nat, r: Round)
    requires i < |rounds|
    ensures TotalUndone(rounds[i := r]) == TotalUndone(rounds) - Undone(rounds[i]) + Undone(r)
  {
    var last := |rounds| - 1;
    if i == last {
      assert rounds[i := r][..last] == rounds[..last];
    } else {
      assert rounds[i := r][..last] == rounds[..last][i := r];
      TotalAfterUpdate(rounds[..last], i, r);
    }
  }

  lemma {:induction false} TotalZero(rounds: seq<Round>)
    ensures TotalUndone(rounds) == 0 <==> forall i :: 0 <= i < |rounds| ==> Undone(rounds[i]) == 0
  {
    if rounds != [] {
      var front := rounds[..|rounds| - 1];
      TotalZero(front);
      assert forall i :: 0 <= i < |front| ==> front[i] == rounds[i];
    }
  }

  lemma FillStaysWithin(r: Round, w: Work, a: Around)
    requires CanWork(r, w, a) && a.fill <= a.cfg.capacity
    ensures FillAfter(r, w, a.fill) <= a.cfg.capacity
  {
  }

  lemma DoKeepsInv(s: System, i: nat, w: Work)
    requires Inv(s) && Enabled(s, Do(i, w))
    ensures Inv(Done(s, i, w))
  {
    hide CanWork, Worked, RoundInv, Undone, TotalUndone;
    WorkKeepsInv(s.rounds[i], w, AroundOf(s));
    FillStaysWithin(s.rounds[i], w, AroundOf(s));
    TotalAfterUpdate(s.rounds, i, Worked(s.rounds[i], w));
  }

  lemma FreshRound(kind: Kind, files: nat, r: Round)
    requires r == Fresh(kind, files)
    ensures RoundInv(r) && Undone(r) == Size(kind)
  {
    FreshWatchdogs(kind, files, r);
    hide Fresh, Size, Undone;
  }

  lemma FreshWatchdogs(kind: Kind, files: nat, r: Round)
    requires r == Fresh(kind, files)
    ensures (r.low.Missing? <==> kind.FinalWrite?) && (!r.high.Missing? <==> kind.Read?) && Undone(r) == Size(kind)
    ensures !r.low.Leaving? && !r.low.Left?
    ensures r.kind == kind && r.stops == r.emergencies == r.scans == r.signals == 0
    ensures r.body.Spawned? && r.scanner == NotStarted(files) && FileInv(r)
  {
  }

  lemma TotalSnoc(rounds: seq<Round>, r: Round)
    ensures TotalUndone(rounds + [r]) == TotalUndone(rounds) + Undone(r)
  {
    assert (rounds + [r])[..|rounds|] == rounds;
  }

  lemma LaunchKeepsInv(s: System, files: nat, r: Round)
    requires Inv(s) && Launches(s.place) && r == Fresh(Launched(s.place), files)
    ensures Inv(s.(rounds := s.rounds + [r], place := Awaiting(s.place)))
  {
    hide RoundInv, Undone, Fresh, TotalUndone, Size;
    FreshRound(Launched(s.place), files, r);
    TotalSnoc(s.rounds, r);
  }

  lemma DeciderKeepsInv(s: System, e: Step)
    requires Inv(s) && Enabled(s, e) && !e.Do? && !e.Launch?
    ensures Inv(Next(s, e))
  {
    hide RoundInv, Undone, TotalUndone;
    TotalZero(s.rounds);
  }

  lemma StepKeepsInv(s: System, e: Step)
    requires Inv(s) && Enabled(s, e)
    ensures Inv(Next(s, e))
  {
    hide Inv;
    if e.Do? {
      DoKeepsInv(s, e.i, e.work);
    } else if e.Launch? {
      LaunchKeepsInv(s, e.files, Fresh(Launched(s.place), e.files));
    } else {
      DeciderKeepsInv(s, e);
    }
  }

  // ---------------------------------------------------------------------------------------------
  // Whole runs

  predicate Feasible(s: System, run: seq<Step>)
    decreases |run|
  {
    run == [] || (Enabled(s, run[0]) && Feasible(Next(s, run[0]), run[1..]))
  }

  function After(s: System, run: seq<Step>): System
    requires Feasible(s, run)
    decreases |run|
  {
    if run == [] then s else After(Next(s, run[0]), run[1..])
  }

  lemma {:induction false} RunKeepsInv(s: System, run: seq<Step>)
    requires Inv(s) && Feasible(s, run)
    ensures Inv(After(s, run)) && After(s, run).cfg == s.cfg
    decreases |run|
  {
    hide Inv, Enabled;
    if run != [] {
      StepKeepsInv(s, run[0]);
      RunKeepsInv(Next(s, run[0]), run[1..]);
    }
  }

  /** The states that a run can reach from the start, with any valid configuration. */
  ghost predicate Reachable(s: System) {
    s.cfg.Valid() && exists run :: Feasible(Start(s.cfg), run) && After(Start(s.cfg), run) == s
  }

  lemma ReachableInv(s: System)
    requires Reachable(s)
    ensures Inv(s) && s.cfg.Valid()
  {
    hide Feasible, After;
    var run :| Feasible(Start(s.cfg), run) && After(Start(s.cfg), run) == s;
    RunKeepsInv(Start(s.cfg), run);
  }

  /** The counter is never negative: it is the number of workers that have not called Done, those about
      to be launched included. At the loop head, and when the decider has gone, it is zero. */
  lemma WaitGroupCounts(s: System)
    requires Reachable(s)
    ensures s.waitGroup == TotalUndone(s.rounds) + Announced(s.place) >= 0
    ensures s.place.LoopHead? || s.place.Deciding? || s.place.Gone? ==> s.waitGroup == 0
  {
    hide Reachable, RoundInv, Undone;
    ReachableInv(s);
    TotalZero(s.rounds);
  }

  lemma FileWorkUndone(r: Round)
    requires RoundInv(r) && FileWork(r)
    ensures Undone(r) > 0
  {
  }

  /** Two rounds never work on files at the same time, and only the round that the decider waits for does. */
  lemma FileWorkNeverOverlaps(s: System, i: nat)
    requires Reachable(s) && i < |s.rounds| && FileWork(s.rounds[i])
    ensures Supervises(s.place) && s.waitGroup > 0
    ensures forall j :: 0 <= j < |s.rounds| && j != i ==> !FileWork(s.rounds[j])
  {
    hide Reachable, RoundInv, Undone, FileWork, TotalUndone;
    ReachableInv(s);
    TotalZero(s.rounds);
    FileWorkUndone(s.rounds[i]);
    forall j | 0 <= j < |s.rounds| && FileWork(s.rounds[j])
      ensures j == |s.rounds| - 1
    {
      FileWorkUndone(s.rounds[j]);
    }
  }

  /** A worker that has called Done has flushed and closed its files: every line it wrote is stored, and
      no cache file is being read any more. */
  lemma SavedBeforeDone(s: System, i: nat)
    requires Reachable(s) && i < |s.rounds|
    requires s.rounds[i].body.ClosingWatchdogs? || s.rounds[i].body.Ended?
    ensures Saved(s.rounds[i].file) && !Scanning(s.rounds[i])
  {
    hide Reachable;
    ReachableInv(s);
    assert RoundInv(s.rounds[i]);
  }

  /** No stop channel is closed twice. */
  lemma ClosedAtMostOnce(s: System)
    requires Reachable(s)
    ensures s.halts <= 1 && s.stops <= 1
    ensures forall i :: 0 <= i < |s.rounds| ==>
      var r := s.rounds[i]; r.stops <= 1 && r.emergencies <= 1 && r.scans <= 1 && r.signals <= 1
  {
    hide Reachable, TotalUndone, Undone;
    ReachableInv(s);
    assert forall i :: 0 <= i < |s.rounds| ==> RoundInv(s.rounds[i]);
  }

  /** A turn that starts reading does not go on to write, because the marks are in order. */
  lemma TurnDoesOneThing(s: System, cached: bool)
    requires s.cfg.Valid() && s.place.Deciding?
    ensures Turned(s, cached).place in {LoopHead, BeforeRead(false), BeforeWrite}
  {
    MarksInOrder(s.cfg.reading, s.cfg.high, s.cfg.capacity);
  }

  lemma MarkExact(cfg: Config, percent: nat, fill: nat)
    ensures fill > cfg.Mark(percent) <==> 100 * fill > percent * cfg.capacity
    ensures fill < cfg.Mark(percent) <==> 100 * (fill + 1) <= percent * cfg.capacity
  {
  }

  /** In percentages of the capacity: a turn reads if there are cache files and the buffer, with one message more,
      does not exceed the reading mark; and it writes if the buffer is above the high mark and there is room
      for cache files. */
  lemma TurnsExactly(s: System, cached: bool)
    requires s.cfg.Valid() && s.place.Deciding?
    ensures Turned(s, cached).place.BeforeRead? <==> cached && 100 * (s.fill + 1) <= s.cfg.reading * s.cfg.capacity
    ensures Turned(s, cached).place.BeforeWrite? <==> s.cfg.cacheRoom && 100 * s.fill > s.cfg.high * s.cfg.capacity
    ensures Turned(s, cached) == s.(place := Turned(s, cached).place)
  {
    TurnDoesOneThing(s, cached);
    MarkExact(s.cfg, s.cfg.reading, s.fill);
    MarkExact(s.cfg, s.cfg.high, s.fill);
    MarksInOrder(s.cfg.reading, s.cfg.high, s.cfg.capacity);
    hide Config.Mark;
  }

  /** A writer is told to stop below the low mark, a reader above it, and the alarm is raised above the high mark. */
  lemma WatchdogsExactly(r: Round, a: Around)
    ensures r.kind.Read? ==>
      (CanWork(r, SeeLowMark, a) <==> r.low.Looking? && 100 * a.fill > a.cfg.low * a.cfg.capacity)
    ensures !r.kind.Read? ==>
      (CanWork(r, SeeLowMark, a) <==> r.low.Looking? && 100 * (a.fill + 1) <= a.cfg.low * a.cfg.capacity)
    ensures CanWork(r, SeeHighMark, a) <==> r.high.Looking? && 100 * a.fill > a.cfg.high * a.cfg.capacity
  {
    MarkExact(a.cfg, a.cfg.low, a.fill);
    MarkExact(a.cfg, a.cfg.high, a.fill);
    hide Config.Mark;
  }

  lemma MarksInOrder(x: nat, y: nat, capacity: nat)
    requires x <= y
    ensures x * capacity / 100 <= y * capacity / 100
  {
    assert x * capacity <= y * capacity;
  }

  // ---------------------------------------------------------------------------------------------
  // When the decider's waiting ends

  /** A watchdog that is told to leave does not look at the fill level again. */
  function WatchRank(w: Watchdog, signals: nat): nat {
    match w
    case Missing => 0
    case Watching => if signals > 0 then 3 else 5
    case Looking => 4
    case Tripping => 2
    case Leaving => 1
    case Left => 0
  }

  function PhaseRank(p: Phase): nat {
    match p
    case Spawned => 8
    case Busy => 7
    case Holding => 7
    case Offering => 7
    case Committed => 7
    case Working => 6
    case Flushing => 5
    case ClosingEncoder => 4
    case ClosingFile => 3
    case Releasing => 2
    case ClosingWatchdogs => 1
    case Ended => 0
  }

  function Rank(r: Round): nat {
    WatchRank(r.low, r.signals) + WatchRank(r.high, r.signals) + PhaseRank(r.body)
    + if r.scanner.Finished? then 0 else 1
  }

  function FilesLeft(r: Round): nat {
    if r.scanner.NotStarted? || r.scanner.Between? || r.scanner.InFile? then r.scanner.files else 0
  }

  /** What is left to do with the line that a reader has taken. */
  function InHand(p: Phase): nat {
    match p
    case Holding => 3
    case Offering => 2
    case Committed => 1
    case _ => 0
  }

  function LinesLeft(r: Round): nat {
    (if r.scanner.InFile? then 4 * (r.scanner.lines + 1) else 0) + InHand(r.body)
  }

  function ForwarderRank(f: Forwarder): nat {
    match f
    case AtSend => 2
    case AtSelect => 1
    case AtReceive => 0
    case Over => 0
  }

  /** Closer to the end: fewer stages to go; or else fewer files; or else fewer lines; or else fewer messages in
      the memory buffer; or else a forwarding goroutine nearer to the next; or else fewer lines in the writer; or
      else fewer in the encoder. */
  predicate Closer(t: Round, b: Around, r: Round, a: Around) {
    || Rank(t) < Rank(r)
    || (Rank(t) == Rank(r) && CloserInPhase(t, b, r, a))
  }

  predicate CloserInPhase(t: Round, b: Around, r: Round, a: Around) {
    var files, lines, fill := FilesLeft(t) == FilesLeft(r), LinesLeft(t) == LinesLeft(r), b.fill == a.fill;
    var forwarder := ForwarderRank(b.forwarder) == ForwarderRank(a.forwarder);
    || FilesLeft(t) < FilesLeft(r)
    || (files && LinesLeft(t) < LinesLeft(r))
    || (files && lines && b.fill < a.fill)
    || (files && lines && fill && ForwarderRank(b.forwarder) < ForwarderRank(a.forwarder))
    || (files && lines && fill && forwarder && t.file.buffered < r.file.buffered)
    || (files && lines && fill && forwarder
        && t.file.buffered == r.file.buffered && t.file.encoded < r.file.encoded)
  }

  function AroundAfter(r: Round, w: Work, a: Around): Around {
    a.(fill := FillAfter(r, w, a.fill))
  }

  /** A watchdog finds its mark not crossed, and nobody has told it to leave. */
  predicate IdlePoll(r: Round, w: Work) {
    r.signals == 0 && (w.SleepLow? || w.SleepHigh?)
  }

  /** Every worker step brings its round closer to the end, but for a file that starts to fail, the retries that
      follow, and a watchdog's idle polls. */
  lemma WorkComesCloser(r: Round, w: Work, a: Around)
    requires RoundInv(r) && CanWork(r, w, a) && !w.FileFails? && !w.Retry? && !IdlePoll(r, w)
    ensures Closer(Worked(r, w), AroundAfter(r, w, a), r, a)
  {
    hide RoundInv, CanWork, Worked, Closer;
    if IsWatchWork(w) {
      WatchComesCloser(r, w, a);
    } else {
      BodyComesCloser(r, w, a);
    }
  }

  lemma WatchComesCloser(r: Round, w: Work, a: Around)
    requires CanWork(r, w, a) && IsWatchWork(w) && !IdlePoll(r, w)
    ensures Closer(Worked(r, w), AroundAfter(r, w, a), r, a)
  {
    hide CloserInPhase, LinesLeft, FilesLeft, PhaseRank;
    assert Worked(r, w).scanner == r.scanner && Worked(r, w).body == r.body;
  }

  lemma BodyComesCloser(r: Round, w: Work, a: Around)
    requires RoundInv(r) && CanWork(r, w, a) && !IsWatchWork(w) && !w.FileFails? && !w.Retry?
    ensures Closer(Worked(r, w), AroundAfter(r, w, a), r, a)
  {
    hide FileInv;
  }

  /** And so does every step of the forwarding goroutine. */
  lemma ForwardComesCloser(r: Round, a: Around)
    requires CanForward(a)
    ensures Closer(r, Forwarded(a), r, a)
  {
  }

  /** Nobody will receive from the memory buffer but the workers. */
  predicate ForwardingEnds(a: Around) {
    a.halted && !a.forwarder.AtReceive?
  }

  /** Nobody can tell the writer to stop: it has no watchdog; or the watchdog waits at its select after the end of
      the input; or the buffer, which will not be drained any more, stays above the low mark. */
  predicate NobodyStops(r: Round, a: Around) {
    || r.low.Missing?
    || (r.low.Watching? && a.stopped)
    || (&& (r.low.Watching? || r.low.Looking?) && a.halted
        && a.fill >= a.cfg.Mark(a.cfg.low) + if a.forwarder.AtReceive? then 1 else 0)
  }

  /** A round that cannot end: a cache file fails for ever; or the reader waits for room in a full buffer that
      will not be drained; or batches are empty and nobody can tell the writer to stop. */
  predicate Hopeless(r: Round, a: Around) {
    || r.scanner.Failing?
    || (r.body.Committed? && a.fill >= a.cfg.capacity && ForwardingEnds(a))
    || (a.cfg.batchSize == 0 && !r.kind.Read? && !Returned(r) && r.stops == 0 && NobodyStops(r, a))
  }

  lemma HopelessUndone(r: Round, a: Around)
    requires RoundInv(r) && Hopeless(r, a)
    ensures Undone(r) > 0
  {
  }

  /** No step of the round gives hope back. */
  lemma WorkKeepsHopeless(r: Round, w: Work, a: Around)
    requires RoundInv(r) && CanWork(r, w, a) && Hopeless(r, a)
    ensures Hopeless(Worked(r, w), AroundAfter(r, w, a))
  {
    hide FileInv;
  }

  lemma ForwardKeepsHopeless(r: Round, a: Around)
    requires Hopeless(r, a) && CanForward(a)
    ensures Hopeless(r, Forwarded(a))
  {
  }

  /** The round can take the step, keeps its hope, and comes closer to its end. */
  predicate Helps(r: Round, w: Work, a: Around) {
    && CanWork(r, w, a) && !w.FileFails? && !w.Retry? && !IdlePoll(r, w)
    && !Hopeless(Worked(r, w), AroundAfter(r, w, a))
  }

  /** A step of the round, or of the forwarding goroutine, on the way to the round's end. */
  lemma RoundCanEnd(r: Round, a: Around) returns (forward: bool, w: Work)
    requires RoundInv(r) && Undone(r) > 0 && !Hopeless(r, a) && a.Valid()
    ensures forward ==> CanForward(a) && !Hopeless(r, Forwarded(a)) && Closer(r, Forwarded(a), r, a)
    ensures !forward ==> Helps(r, w, a) && Closer(Worked(r, w), AroundAfter(r, w, a), r, a)
  {
    forward, w := false, Begin;
    if r.body.Spawned? || Returned(r) {
      w := NextOutsideLoop(r, a);
      OutsideLoopHelps(r, a);
    } else if r.kind.Read? {
      forward := r.body.Committed? && a.fill >= a.cfg.capacity;
      w := NextOfReader(r);
      ReaderHelps(r, a);
    } else {
      forward, w := WriterCanEnd(r, a);
    }
    hide RoundInv, Closer, CanWork, Worked, Hopeless, Undone;
    if forward {
      ForwardComesCloser(r, a);
    } else {
      WorkComesCloser(r, w, a);
    }
  }

  /** Steps that need nothing but the round. */
  function NextOutsideLoop(r: Round, a: Around): Work {
    match r.body
    case Spawned => Begin
    case Flushing => Flush
    case ClosingEncoder => CloseEncoder
    case ClosingFile => CloseFile
    case Releasing => BodyDone
    case ClosingWatchdogs => CloseWatchdogs
    case _ => if Busyness(r.low) > 0 then NextOfLow(r, a) else NextOfHigh(r, a)
  }

  function NextOfLow(r: Round, a: Around): Work {
    match r.low
    case Watching => HeedLow
    case Looking => if LowMarkCrossed(r, a) then SeeLowMark else SleepLow
    case Tripping => CloseStop
    case _ => LowDone
  }

  function NextOfHigh(r: Round, a: Around): Work {
    match r.high
    case Watching => HeedHigh
    case Looking => if HighMarkCrossed(a) then SeeHighMark else SleepHigh
    case Tripping => CloseEmergency
    case _ => HighDone
  }

  lemma OutsideLoopHelps(r: Round, a: Around)
    requires RoundInv(r) && Undone(r) > 0 && !Hopeless(r, a) && (r.body.Spawned? || Returned(r))
    ensures Helps(r, NextOutsideLoop(r, a), a)
  {
    hide FileInv;
  }

  function NextOfReader(r: Round): Work {
    match r.body
    case Holding => if r.emergencies > 0 then SeeEmergency else Parse(true)
    case Offering => GiveOut
    case Committed => Push
    case _ =>
      match r.scanner
      case Between(files) => if files == 0 then EndScan else OpenFile(0)
      case InFile(lines, _) => if lines == 0 then EndFile else if r.body.Busy? then TakeLine else WriteLine
      case _ => Return
  }

  lemma ReaderHelps(r: Round, a: Around)
    requires RoundInv(r) && r.kind.Read? && (InLoop(r) || r.body.Working?) && !Hopeless(r, a) && a.Valid()
    ensures if r.body.Committed? && a.fill >= a.cfg.capacity then CanForward(a) && !Hopeless(r, Forwarded(a))
            else Helps(r, NextOfReader(r), a)
  {
    RoomInBuffer(a.cfg);
    hide FileInv, Config.Valid;
  }

  lemma WriterCanEnd(r: Round, a: Around) returns (forward: bool, w: Work)
    requires RoundInv(r) && !r.kind.Read? && r.body.Working? && !Hopeless(r, a) && a.Valid()
    ensures forward ==> CanForward(a) && !Hopeless(r, Forwarded(a))
    ensures !forward ==> Helps(r, w, a)
  {
    hide FileInv;
    forward, w := false, Return;
    if r.stops > 0 || (a.fill == 0 && a.cfg.batchSize > 0) {
    } else if a.cfg.batchSize > 0 {
      w := WriteLine;
    } else if r.low.Tripping? {
      w := CloseStop;
    } else if a.fill < a.cfg.Mark(a.cfg.low) {
      w := if r.low.Looking? then SeeLowMark else LookLow;
    } else {
      forward := true;
    }
  }

  /** The round that the decider waits for cannot end. */
  predicate Stuck(s: System) {
    Supervises(s.place) && s.rounds != [] && Hopeless(s.rounds[|s.rounds| - 1], AroundOf(s))
  }

  lemma StuckWaits(s: System)
    requires Inv(s) && Stuck(s)
    ensures s.waitGroup > 0
  {
    hide RoundInv, Hopeless, Undone, TotalUndone;
    HopelessUndone(s.rounds[|s.rounds| - 1], AroundOf(s));
    TotalZero(s.rounds);
  }

  /** The end of the input gives no hope, and flows arrive only before it. */
  lemma InputKeepsHopeless(r: Round, s: System, e: Step)
    requires Hopeless(r, AroundOf(s)) && Enabled(s, e) && (e.Arrive? || e.Halt? || e.CloseDecider?)
    requires s.stops > 0 ==> s.halts > 0
    ensures Hopeless(r, AroundOf(Next(s, e)))
  {
  }

  /** The workers of an earlier round do not touch the memory buffer. */
  lemma FinishedKeepsFill(r: Round, w: Work, a: Around)
    requires Undone(r) == 0 && CanWork(r, w, a)
    ensures FillAfter(r, w, a.fill) == a.fill
  {
  }

  lemma StepKeepsStuck(s: System, e: Step)
    requires Inv(s) && Stuck(s) && Enabled(s, e)
    ensures Stuck(Next(s, e)) && Next(s, e).place == s.place
  {
    hide RoundInv, Undone, TotalUndone, CanWork, Worked, Hopeless, FillAfter, CanForward, Forwarded;
    StuckWaits(s);
    var last := |s.rounds| - 1;
    if e.Do? {
      if e.i == last {
        WorkKeepsHopeless(s.rounds[last], e.work, AroundOf(s));
      } else {
        FinishedKeepsFill(s.rounds[e.i], e.work, AroundOf(s));
      }
    } else if e.Forward? {
      ForwardKeepsHopeless(s.rounds[last], AroundOf(s));
      ForwardedFields(AroundOf(s));
    } else if e.Arrive? || e.Halt? || e.CloseDecider? {
      InputKeepsHopeless(s.rounds[last], s, e);
    }
  }

  lemma ForwardedFields(a: Around)
    ensures Forwarded(a) == a.(fill := Forwarded(a).fill, forwarder := Forwarded(a).forwarder)
  {
  }

  lemma {:induction false} RunKeepsStuck(s: System, run: seq<Step>)
    requires Inv(s) && Stuck(s) && Feasible(s, run)
    ensures After(s, run).place == s.place
    decreases |run|
  {
    hide Inv, Stuck, Enabled;
    if run != [] {
      StepKeepsInv(s, run[0]);
      StepKeepsStuck(s, run[0]);
      RunKeepsStuck(Next(s, run[0]), run[1..]);
    }
  }

  /** A step on the way to the end of the decider's waiting. */
  lemma WaitingStep(s: System) returns (e: Step)
    requires Inv(s) && s.cfg.Valid() && Supervises(s.place) && s.waitGroup > 0 && !Stuck(s)
    ensures Enabled(s, e) && (e.Do? || e.Forward?) && !Stuck(Next(s, e)) && Next(s, e).place == s.place
    ensures |Next(s, e).rounds| == |s.rounds| > 0 && Next(s, e).cfg == s.cfg
    ensures Closer(Last(Next(s, e)), AroundOf(Next(s, e)), Last(s), AroundOf(s))
  {
    hide RoundInv, Undone, TotalUndone, CanWork, Worked, Hopeless, Closer, CanForward, Forwarded;
    TotalZero(s.rounds);
    var forward, w := RoundCanEnd(Last(s), AroundOf(s));
    e := if forward then Forward else Do(|s.rounds| - 1, w);
    ForwardedFields(AroundOf(s));
  }

  /** The round launched last. */
  function Last(s: System): Round
    requires s.rounds != []
  {
    s.rounds[|s.rounds| - 1]
  }

  lemma {:induction false} WaitingEnds(s: System) returns (run: seq<Step>)
    requires Inv(s) && s.cfg.Valid() && Supervises(s.place) && !Stuck(s)
    ensures Feasible(s, run) && After(s, run).place != s.place
    decreases
      Rank(Last(s)), FilesLeft(Last(s)), LinesLeft(Last(s)), s.fill, ForwarderRank(s.forwarder),
      Last(s).file.buffered, Last(s).file.encoded
  {
    hide Inv, Stuck, Enabled, Rank, FilesLeft, LinesLeft, ForwarderRank, Next;
    if s.waitGroup == 0 {
      run := [Proceed];
      ProceedLeaves(s);
      OneStep(s, Proceed);
    } else {
      CounterNotNegative(s);
      var e := WaitingStep(s);
      StepKeepsInv(s, e);
      var rest := WaitingEnds(Next(s, e));
      run := [e] + rest;
      FirstStep(s, e, rest);
    }
  }

  lemma ProceedLeaves(s: System)
    requires Supervises(s.place) && s.waitGroup == 0
    ensures Enabled(s, Proceed) && Next(s, Proceed).place != s.place
  {
  }

  lemma CounterNotNegative(s: System)
    requires Inv(s)
    ensures s.waitGroup >= 0
  {
  }

  lemma OneStep(s: System, e: Step)
    requires Enabled(s, e)
    ensures Feasible(s, [e]) && After(s, [e]) == Next(s, e)
  {
    assert [e][1..] == [];
    assert After(Next(s, e), []) == Next(s, e);
  }

  lemma FirstStep(s: System, e: Step, rest: seq<Step>)
    requires Enabled(s, e) && Feasible(Next(s, e), rest)
    ensures Feasible(s, [e] + rest) && After(s, [e] + rest) == After(Next(s, e), rest)
  {
    assert ([e] + rest)[1..] == rest;
  }

  /** In every reachable state in which the decider waits for a round, its waiting can end if and only if the
      round is not one that cannot end: no cache file fails for ever, no reader waits for room in a full buffer
      that will not be drained, and if batches are empty a writer can still be told to stop. */
  lemma WaitEndsIff(s: System)
    requires Reachable(s) && Supervises(s.place)
    ensures (exists run :: Feasible(s, run) && After(s, run).place != s.place) <==> !Stuck(s)
  {
    hide Reachable, Inv, Stuck, Feasible, After;
    ReachableInv(s);
    if Stuck(s) {
      forall run | Feasible(s, run)
        ensures After(s, run).place == s.place
      {
        RunKeepsStuck(s, run);
      }
    } else {
      var run := WaitingEnds(s);
    }
  }

  /** Everywhere else the decider can take the next step at once. */
  lemma DeciderMoves(s: System) returns (e: Step)
    requires Reachable(s) && !Supervises(s.place) && !s.place.Gone?
    ensures Enabled(s, e) && Next(s, e).place != s.place
    ensures e.Choose? || e.Turn? || e.TurnFinal? || e.Proceed? || e.Launch?
  {
    hide Reachable, RoundInv, Undone, TotalUndone;
    ReachableInv(s);
    TotalZero(s.rounds);
    e := if s.place.LoopHead? then (if s.stops == 0 then Choose else TurnFinal)
         else if s.place.Deciding? then Turn(true)
         else if Launches(s.place) then Launch(0)
         else Proceed;
  }

  // ---------------------------------------------------------------------------------------------
  // Runs into rounds that cannot end

  lemma {:induction false} FeasibleSnoc(s: System, run: seq<Step>, e: Step)
    requires Feasible(s, run) && Enabled(After(s, run), e)
    ensures Feasible(s, run + [e]) && After(s, run + [e]) == Next(After(s, run), e)
    decreases |run|
  {
    if run == [] {
      OneStep(s, e);
      assert run + [e] == [e];
    } else {
      FeasibleSnoc(Next(s, run[0]), run[1..], e);
      assert (run + [e])[1..] == run[1..] + [e];
    }
  }

  lemma Extend(s: System, e: Step)
    requires Reachable(s) && Enabled(s, e)
    ensures Reachable(Next(s, e)) && Next(s, e).cfg == s.cfg
  {
    hide Feasible, After, Enabled, CanWork, Worked, Forwarded, CanForward, Config.Valid;
    var run :| Feasible(Start(s.cfg), run) && After(Start(s.cfg), run) == s;
    FeasibleSnoc(Start(s.cfg), run, e);
    assert Next(s, e).cfg == s.cfg;
  }

  /** A step of the only round that there is. */
  lemma WorkAlone(s: System, w: Work) returns (t: System)
    requires Reachable(s) && |s.rounds| == 1 && CanWork(s.rounds[0], w, AroundOf(s))
    ensures Reachable(t) && t.rounds == [Worked(s.rounds[0], w)] && t.place == s.place && t.cfg == s.cfg
    ensures t.halts == s.halts && t.stops == s.stops && t.forwarder == s.forwarder
    ensures t.fill == FillAfter(s.rounds[0], w, s.fill)
    ensures t.waitGroup == if IsDone(w) then s.waitGroup - 1 else s.waitGroup
  {
    hide Reachable, CanWork, Worked;
    Extend(s, Do(0, w));
    t := Next(s, Do(0, w));
  }

  /** A state that the decider can reach before any flow has arrived, if there are cache files. */
  lemma ReaderLaunched(cfg: Config) returns (s: System)
    requires cfg.Valid() && cfg.Mark(cfg.reading) > 0
    ensures Reachable(s) && s.cfg == cfg && s.place.AfterRead? && s.rounds == [Fresh(Read, 1)]
    ensures s.halts == 0 && s.fill == 0 && s.forwarder.AtSelect?
  {
    s := Start(cfg);
    assert Feasible(s, []) && After(s, []) == s;
    assert Reachable(s);
    hide Reachable, Config.Valid, Config.Mark;
    Extend(s, Choose);
    s := Next(s, Choose);
    Extend(s, Turn(true));
    s := Next(s, Turn(true));
    Extend(s, Proceed);
    s := Next(s, Proceed);
    Extend(s, Launch(1));
    s := Next(s, Launch(1));
  }

  /** Whatever the configuration with a reading mark of at least one message: the first cache file fails. */
  lemma StuckByFile(cfg: Config) returns (s: System)
    requires cfg.Valid() && cfg.Mark(cfg.reading) > 0
    ensures Reachable(s) && s.cfg == cfg && Stuck(s) && Last(s).scanner.Failing?
  {
    hide Reachable, Config.Valid, Config.Mark;
    s := ReaderLaunched(cfg);
    s := WorkAlone(s, Begin);
    s := WorkAlone(s, OpenFile(1));
    s := WorkAlone(s, FileFails);
  }

  /** The same without a failing file: while the reader waits for room, the input fills the buffer and ends
      before the forwarding goroutine looks at it again. */
  lemma StuckByFullBuffer(cfg: Config) returns (s: System)
    requires cfg.Valid() && cfg.Mark(cfg.reading) > 0
    ensures Reachable(s) && s.cfg == cfg && Stuck(s)
    ensures Last(s).body.Committed? && !Last(s).scanner.Failing? && s.fill == cfg.capacity
  {
    hide Reachable, Config.Valid, Config.Mark;
    s := ReaderLaunched(cfg);
    s := WorkAlone(s, Begin);
    s := WorkAlone(s, OpenFile(1));
    s := WorkAlone(s, TakeLine);
    s := WorkAlone(s, Parse(true));
    s := WorkAlone(s, TimeOut);
    s := FilledUp(s);
    Extend(s, Halt);
    s := Next(s, Halt);
  }

  lemma {:induction false} FilledUp(s: System) returns (t: System)
    requires Reachable(s) && s.halts == 0 && s.fill <= s.cfg.capacity
    ensures Reachable(t) && t == s.(fill := s.cfg.capacity)
    decreases s.cfg.capacity - s.fill
  {
    hide Reachable, Config.Valid;
    t := s;
    if s.fill < s.cfg.capacity {
      Extend(s, Arrive);
      t := FilledUp(Next(s, Arrive));
    }
  }

  /** The last writer, if batches are empty. */
  lemma StuckByEmptyBatches(cfg: Config) returns (s: System)
    requires cfg.Valid() && cfg.batchSize == 0
    ensures Reachable(s) && s.cfg == cfg && Stuck(s) && s.place.AfterFinal?
  {
    s := FinalLaunched(cfg, Start(cfg));
  }

  /** From the start, or from the forwarding goroutine's first receive, to the launch of the last writer. */
  lemma FinalLaunched(cfg: Config, s: System) returns (t: System)
    requires cfg.Valid() && (s == Start(cfg) || s == Start(cfg).(forwarder := AtReceive))
    ensures Reachable(t) && t.cfg == cfg && t.place.AfterFinal? && t.rounds == [Fresh(FinalWrite, 0)]
    ensures t.fill == 0 && t.waitGroup == 1 && t.forwarder == s.forwarder
  {
    t := Start(cfg);
    assert Feasible(t, []) && After(t, []) == t;
    assert Reachable(t);
    hide Reachable, Config.Valid, Config.Mark;
    if s != t {
      Extend(t, Forward);
      t := Next(t, Forward);
    }
    Extend(t, Halt);
    t := Next(t, Halt);
    Extend(t, CloseDecider);
    t := Next(t, CloseDecider);
    Extend(t, TurnFinal);
    t := Next(t, TurnFinal);
    Extend(t, Launch(0));
    t := Next(t, Launch(0));
  }

  /** Without a reading mark no cache file is ever read. */
  predicate NoReads(s: System) {
    && !s.place.BeforeRead? && !s.place.LaunchRead? && !s.place.AfterRead?
    && forall i :: 0 <= i < |s.rounds| ==> !s.rounds[i].kind.Read?
  }

  lemma WorkKeepsKind(r: Round, w: Work)
    ensures Worked(r, w).kind == r.kind
  {
  }

  lemma StepKeepsNoReads(s: System, e: Step)
    requires NoReads(s) && Enabled(s, e) && s.cfg.Mark(s.cfg.reading) == 0
    ensures NoReads(Next(s, e)) && Next(s, e).cfg == s.cfg
  {
    hide Config.Mark, CanWork, Worked, Forwarded, CanForward;
    if e.Do? {
      WorkKeepsKind(s.rounds[e.i], e.work);
    }
  }

  lemma {:induction false} RunKeepsNoReads(s: System, run: seq<Step>)
    requires NoReads(s) && Feasible(s, run) && s.cfg.Mark(s.cfg.reading) == 0
    ensures NoReads(After(s, run))
    decreases |run|
  {
    hide NoReads, Enabled, Config.Mark, Next;
    if run != [] {
      StepKeepsNoReads(s, run[0]);
      RunKeepsNoReads(Next(s, run[0]), run[1..]);
    }
  }

  /** A configuration has a run after which the decider waits for ever if and only if cache files can be read at
      all or batches are empty. */
  lemma ConfigStallsIff(cfg: Config)
    requires cfg.Valid()
    ensures (exists s :: Reachable(s) && s.cfg == cfg && Stuck(s)) <==> cfg.Mark(cfg.reading) > 0 || cfg.batchSize == 0
  {
    hide Stuck, Config.Valid, Config.Mark, Feasible, After, RoundInv, Hopeless;
    if cfg.batchSize == 0 {
      var s := StuckByEmptyBatches(cfg);
    } else if cfg.Mark(cfg.reading) > 0 {
      var s := StuckByFile(cfg);
    } else {
      forall s | Reachable(s) && s.cfg == cfg
        ensures !Stuck(s)
      {
        var run :| Feasible(Start(cfg), run) && After(Start(cfg), run) == s;
        RunKeepsNoReads(Start(cfg), run);
        ReachableInv(s);
        WritersHaveHope(s);
      }
    }
  }

  lemma WritersHaveHope(s: System)
    requires Inv(s) && NoReads(s) && s.cfg.batchSize > 0
    ensures !Stuck(s)
  {
    hide Undone, TotalUndone, FileInv;
  }

  // ---------------------------------------------------------------------------------------------
  // When the forwarding goroutine ends

  /** Once the input has ended, the last writer returns only when the memory buffer is empty. */
  predicate Ending(s: System) {
    && (s.place.LaunchFinal? || s.place.AfterFinal? || s.place.Gone? ==> s.stops > 0)
    && (s.place.AfterFinal? || s.place.Gone? ==>
        s.rounds != [] && Last(s).kind.FinalWrite? && (Returned(Last(s)) ==> s.fill == 0))
  }

  lemma FinalReturnsEmpty(r: Round, w: Work, a: Around)
    requires RoundInv(r) && r.kind.FinalWrite? && CanWork(r, w, a) && (Returned(r) ==> a.fill == 0)
    ensures Returned(Worked(r, w)) ==> FillAfter(r, w, a.fill) == 0
  {
    hide FileInv;
  }

  lemma StepKeepsEnding(s: System, e: Step)
    requires Inv(s) && Ending(s) && Enabled(s, e)
    ensures Ending(Next(s, e))
  {
    hide RoundInv, Undone, TotalUndone, CanWork, Worked, FillAfter, Returned;
    if e.Do? {
      WorkKeepsKind(s.rounds[e.i], e.work);
      if s.place.AfterFinal? || s.place.Gone? {
        if e.i == |s.rounds| - 1 {
          FinalReturnsEmpty(s.rounds[e.i], e.work, AroundOf(s));
        } else {
          FinishedKeepsFill(s.rounds[e.i], e.work, AroundOf(s));
        }
      }
    } else if e.Launch? {
      FreshNotReturned(Launched(s.place), e.files);
    }
  }

  lemma FreshNotReturned(kind: Kind, files: nat)
    ensures !Returned(Fresh(kind, files)) && Fresh(kind, files).kind == kind
  {
  }

  lemma {:induction false} RunKeepsEnding(s: System, run: seq<Step>)
    requires Inv(s) && Ending(s) && Feasible(s, run)
    ensures Ending(After(s, run))
    decreases |run|
  {
    hide Inv, Enabled, Ending, Next;
    if run != [] {
      StepKeepsInv(s, run[0]);
      StepKeepsEnding(s, run[0]);
      RunKeepsEnding(Next(s, run[0]), run[1..]);
    }
  }

  /** When the decider has gone, every message of the memory buffer has been taken out of it. */
  lemma NothingInBuffer(s: System)
    requires Reachable(s) && s.place.Gone?
    ensures s.fill == 0 && s.stops > 0
  {
    hide Feasible, After, RoundInv, Config.Valid;
    ReachableInv(s);
    var run :| Feasible(Start(s.cfg), run) && After(Start(s.cfg), run) == s;
    RunKeepsEnding(Start(s.cfg), run);
  }

  /** The forwarding goroutine waits for a message that cannot come. */
  predicate Deserted(s: System) {
    Inv(s) && s.place.Gone? && s.fill == 0 && s.halts > 0 && s.stops > 0 && s.forwarder.AtReceive?
  }

  lemma StepKeepsDeserted(s: System, e: Step)
    requires Deserted(s) && Enabled(s, e)
    ensures Deserted(Next(s, e))
  {
    StepKeepsInv(s, e);
    hide Inv, Undone, CanWork, Worked, FillAfter;
    if e.Do? {
      AllDone(s, e.i);
      FinishedKeepsFill(s.rounds[e.i], e.work, AroundOf(s));
    }
  }

  lemma AllDone(s: System, i: nat)
    requires Inv(s) && s.place.Gone? && i < |s.rounds|
    ensures Undone(s.rounds[i]) == 0
  {
  }

  lemma {:induction false} RunKeepsDeserted(s: System, run: seq<Step>)
    requires Deserted(s) && Feasible(s, run)
    ensures Deserted(After(s, run))
    decreases |run|
  {
    hide Enabled, Deserted, Next;
    if run != [] {
      StepKeepsDeserted(s, run[0]);
      RunKeepsDeserted(Next(s, run[0]), run[1..]);
    }
  }

  /** When the decider has gone, the forwarding goroutine can still end, so that the output can be closed, if and
      only if it does not wait for a message: the last writer may have taken the one it went to receive. */
  lemma ForwarderEndsIff(s: System)
    requires Reachable(s) && s.place.Gone?
    ensures (exists run :: Feasible(s, run) && After(s, run).forwarder.Over?) <==> !s.forwarder.AtReceive?
  {
    hide Reachable, Feasible, After, Inv;
    ReachableInv(s);
    NothingInBuffer(s);
    if s.forwarder.AtReceive? {
      EndedBeforeGone(s);
      forall run | Feasible(s, run)
        ensures !After(s, run).forwarder.Over?
      {
        RunKeepsDeserted(s, run);
      }
    } else {
      EndedBeforeGone(s);
      var run := ForwarderLeaves(s);
    }
  }

  lemma EndedBeforeGone(s: System)
    requires Inv(s) && s.stops > 0
    ensures s.halts > 0
  {
  }

  lemma ForwarderLeaves(s: System) returns (run: seq<Step>)
    requires s.halts > 0 && !s.forwarder.AtReceive?
    ensures Feasible(s, run) && After(s, run).forwarder.Over?
  {
    if s.forwarder.AtSend? {
      OneStep(Next(s, Forward), Forward);
      FirstStep(s, Forward, [Forward]);
      run := [Forward] + [Forward];
    } else if s.forwarder.AtSelect? {
      OneStep(s, Forward);
      run := [Forward];
    } else {
      run := [];
    }
  }

  /** That happens without a single flow, whatever the configuration with batches of at least one message. */
  lemma ForwarderDeserted(cfg: Config) returns (s: System)
    requires cfg.Valid() && cfg.batchSize > 0
    ensures Reachable(s) && s.cfg == cfg && s.place.Gone? && s.forwarder.AtReceive?
  {
    hide Reachable, Config.Valid, Config.Mark;
    s := FinalLaunched(cfg, Start(cfg).(forwarder := AtReceive));
    s := WorkAlone(s, Begin);
    s := WorkAlone(s, Return);
    s := FileClosed(s);
    s := WorkAlone(s, BodyDone);
    Extend(s, Proceed);
    s := Next(s, Proceed);
  }

  lemma FileClosed(s: System) returns (t: System)
    requires Reachable(s) && |s.rounds| == 1 && s.rounds[0].body.Flushing?
    ensures Reachable(t) && |t.rounds| == 1 && t.rounds[0].body.Releasing?
    ensures t.cfg == s.cfg && t.place == s.place && t.waitGroup == s.waitGroup && t.forwarder == s.forwarder
  {
    hide Reachable, Config.Valid, Config.Mark;
    t := WorkAlone(s, Flush);
    t := WorkAlone(t, CloseEncoder);
    t := WorkAlone(t, CloseFile);
  }
}
