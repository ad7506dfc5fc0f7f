/** The first phase of dedup.c as concurrent threads: the producer (thread 0) and the workers
    (threads 1, 2, ...). Every thread is deterministic; a schedule says who moves next. Taking a
    lock is one step, and so is a critical section up to its unlock. */
module Protocol {
  import opened Types
  import opened Twins
  import opened Visiting

  datatype Lock = QueueLock | DoneLock | VisitedLock | DuplicatesLock | MetricsLock | ProgressLock

  datatype Section =
    | Pop | ReadDone
    | Report(e: FileEntry)
    | Insert(e: FileEntry, fm: FileMetadata)
    | List(e: FileEntry, fm: FileMetadata, twin: FileMetadata)
    | PrintList(e: FileEntry, fm: FileMetadata, twin: FileMetadata)
    | Append(e: FileEntry, fm: FileMetadata, twin: FileMetadata)
    | CountFound(e: FileEntry, fm: FileMetadata, twin: FileMetadata)
    | PrintFound(e: FileEntry)
    | Tick

  /** `Append` is the rest of the section that `List` opened, so it is never waited for. */
  function LockOf(sec: Section): Lock {
    match sec
    case Pop => QueueLock
    case ReadDone => DoneLock
    case Insert(_, _) => VisitedLock
    case List(_, _, _) => DuplicatesLock
    case Append(_, _, _) => DuplicatesLock
    case CountFound(_, _, _) => MetricsLock
    case Report(_) => ProgressLock
    case PrintList(_, _, _) => ProgressLock
    case PrintFound(_) => ProgressLock
    case Tick => ProgressLock
  }

  datatype Worker = Start | Want(sec: Section) | In(sec: Section) | Probing(e: FileEntry) | Exited

  datatype Producer =
    | Walking
    | WantTotal | InTotal
    | WantAppend | InAppend
    | WantFinish | InFinish
    | Joining(i: nat)
    | Returned

  datatype Config = Config(hashes: Hashes, probes: Probes, progress: bool, verbosity: nat)

  /** The last five fields only record what happened: the entries taken from the queue, those
      opened or inserted, and those whose visit is over, each in order; how many had been taken
      when `done` was set; and whether a worker found the queue empty after that. */
  datatype State = State(
    pending: seq<FileEntry>, queue: seq<FileEntry>, done: bool,
    phase: Phase, total: nat, completed: nat,
    locks: map<Lock, nat>, producer: Producer, workers: seq<Worker>,
    popped: seq<FileEntry>, seen: seq<FileEntry>, finished: seq<FileEntry>, poppedAtDone: nat, latePoll: bool)

  function Init(entries: seq<FileEntry>, n: nat): State {
    State(entries, [], false, Phase([], map[], 0), 0, 0, map[], Walking,
          seq(n, i => Start), [], [], [], 0, false)
  }

  function Acquire(s: State, l: Lock, t: nat): State {
    s.(locks := s.locks[l := t])
  }

  function Release(s: State, l: Lock): State {
    s.(locks := s.locks - {l})
  }

  // ----- The producer -----

  predicate ProducerCan(s: State) {
    match s.producer
    case Walking => true
    case Returned => false
    case Joining(i) => i < |s.workers| ==> s.workers[i] == Exited
    case WantTotal => ProgressLock !in s.locks
    case WantAppend => QueueLock !in s.locks
    case WantFinish => DoneLock !in s.locks
    case _ => true
  }

  function ProducerStep(cfg: Config, s: State): (s': State)
    ensures s'.workers == s.workers && s'.phase == s.phase && s'.seen == s.seen && s'.popped == s.popped
    ensures s'.completed == s.completed && s'.finished == s.finished
    ensures s'.total == s.total + if s.producer == InTotal then 1 else 0
  {
    match s.producer
    case Walking =>
      if s.pending == [] then s.(producer := WantFinish)
      else s.(producer := if cfg.progress then WantTotal else WantAppend)
    case WantTotal => Acquire(s, ProgressLock, 0).(producer := InTotal)
    case InTotal => Release(s, ProgressLock).(total := s.total + 1, producer := WantAppend)
    case WantAppend => Acquire(s, QueueLock, 0).(producer := InAppend)
    case InAppend =>
      var s := Release(s, QueueLock).(producer := Walking);
      if s.pending == [] then s
      else s.(queue := s.queue + [s.pending[0]], pending := s.pending[1..])
    case WantFinish => Acquire(s, DoneLock, 0).(producer := InFinish)
    case InFinish => Release(s, DoneLock).(done := true, poppedAtDone := |s.popped|, producer := Joining(0))
    case Joining(i) => s.(producer := if i < |s.workers| then Joining(i + 1) else Returned)
    case Returned => s
  }

  // ----- The workers -----

  function Go(s: State, w: nat, pc: Worker): (s': State)
    requires w < |s.workers|
    ensures |s'.workers| == |s.workers| && s'.workers == s.workers[w := s'.workers[w]]
    ensures s'.producer == s.producer
  {
    s.(workers := s.workers[w := pc])
  }

  predicate WorkerCan(s: State, w: nat)
    requires w < |s.workers|
  {
    match s.workers[w]
    case Exited => false
    case Want(sec) => LockOf(sec) !in s.locks
    case _ => true
  }

  /** Where a worker goes when `visit_entry` has returned. */
  function Home(cfg: Config): Worker {
    if cfg.progress then Want(Tick) else Want(Pop)
  }

  /** Where a worker goes from the critical section `sec`. */
  function Next(cfg: Config, s: State, sec: Section): Worker {
    match sec
    case Pop => if s.queue == [] then Want(ReadDone) else Probing(s.queue[0])
    case ReadDone => if s.done then Exited else Want(Pop)
    case Report(_) => Home(cfg)
    case Insert(e, fm) =>
      var twin := Twin(cfg.hashes, s.phase.history, fm);
      if twin.Some? then Want(List(e, Hashed(cfg.hashes, fm), twin.value)) else Home(cfg)
    case List(e, fm, twin) =>
      if cfg.verbosity > 0 && cfg.progress then Want(PrintList(e, fm, twin)) else In(Append(e, fm, twin))
    case PrintList(e, fm, twin) => In(Append(e, fm, twin))
    case Append(e, fm, twin) => if fm.cloneId != twin.cloneId then Want(CountFound(e, fm, twin)) else Home(cfg)
    case CountFound(e, _, _) => if cfg.verbosity > 1 && cfg.progress then Want(PrintFound(e)) else Home(cfg)
    case PrintFound(_) => Home(cfg)
    case Tick => Want(Pop)
  }

  /** Whether `visit_entry` returns for the entry at the end of the section. */
  predicate Finishes(cfg: Config, s: State, sec: Section) {
    !sec.Pop? && !sec.ReadDone? && !sec.Tick? && Next(cfg, s, sec) == Home(cfg)
  }

  /** What the section does to the state that the threads share, up to and including its unlock. */
  function Effect(cfg: Config, s: State, sec: Section): (s': State)
    ensures s'.workers == s.workers && s'.producer == s.producer && s'.pending == s.pending && s'.done == s.done
    ensures s'.total == s.total
  {
    match sec
    case Pop =>
      var s := Release(s, QueueLock);
      if s.queue == [] then s.(latePoll := s.latePoll || s.done)
      else s.(queue := s.queue[1..], popped := s.popped + [s.queue[0]])
    case Insert(e, fm) =>
      Release(s, VisitedLock).(phase := s.phase.(history := s.phase.history + [fm]), seen := s.seen + [e])
    case List(_, fm, twin) => s.(phase := s.phase.(lists := WithHead(s.phase.lists, fm, twin)))
    case Append(_, fm, twin) =>
      Release(s, DuplicatesLock).(phase := s.phase.(lists := WithTail(s.phase.lists, fm)))
    case CountFound(_, _, _) => Release(s, MetricsLock).(phase := s.phase.(found := s.phase.found + 1))
    case Tick => Release(s, ProgressLock).(completed := s.completed + 1)
    case _ => Release(s, LockOf(sec))
  }

  /** The critical section `sec`. */
  function Inside(cfg: Config, s: State, w: nat, sec: Section): (s': State)
    requires w < |s.workers|
    ensures |s'.workers| == |s.workers| && s'.workers == s.workers[w := s'.workers[w]]
    ensures s'.producer == s.producer && s'.total == s.total && s'.pending == s.pending
  {
    Effect(cfg, s, sec).(workers := s.workers[w := Next(cfg, s, sec)],
                         finished := if Finishes(cfg, s, sec) then s.finished + [sec.e] else s.finished)
  }

  function WorkerStep(cfg: Config, s: State, w: nat): (s': State)
    requires w < |s.workers|
    ensures |s'.workers| == |s.workers| && s'.workers == s.workers[w := s'.workers[w]]
    ensures s'.producer == s.producer && s'.total == s.total && s'.pending == s.pending
  {
    match s.workers[w]
    case Start => Go(s, w, if s.done then Exited else Want(Pop))
    case Want(sec) => Go(Acquire(s, LockOf(sec), w + 1), w, In(sec))
    case In(sec) => Inside(cfg, s, w, sec)
    case Probing(e) =>
      var m := MetadataFromEntry(cfg.probes, e);
      if m.Some? then Go(s, w, Want(Insert(e, m.value)))
      else
        var s := s.(seen := s.seen + [e]);
        if cfg.progress then Go(s, w, Want(Report(e))) else Go(s.(finished := s.finished + [e]), w, Home(cfg))
    case Exited => s
  }

  // ----- Runs -----

  predicate Enabled(s: State, t: nat) {
    if t == 0 then ProducerCan(s) else t <= |s.workers| && WorkerCan(s, t - 1)
  }

  function Step(cfg: Config, s: State, t: nat): (s': State)
    requires Enabled(s, t)
    ensures |s'.workers| == |s.workers|
  {
    if t == 0 then ProducerStep(cfg, s) else WorkerStep(cfg, s, t - 1)
  }

  /** The state after a schedule; a thread that cannot move is passed over. */
  function Run(cfg: Config, entries: seq<FileEntry>, n: nat, schedule: seq<nat>): State {
    if schedule == [] then Init(entries, n)
    else
      var s := Run(cfg, entries, n, schedule[..|schedule| - 1]);
      var t := schedule[|schedule| - 1];
      if Enabled(s, t) then Step(cfg, s, t) else s
  }

  lemma LastStep(cfg: Config, entries: seq<FileEntry>, n: nat, schedule: seq<nat>)
    requires schedule != []
    ensures var s, t := Run(cfg, entries, n, schedule[..|schedule| - 1]), schedule[|schedule| - 1];
            Run(cfg, entries, n, schedule) == if Enabled(s, t) then Step(cfg, s, t) else s
  {
    hide Enabled, Step;
  }
}
