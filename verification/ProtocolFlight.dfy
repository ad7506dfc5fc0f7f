/** Whatever the schedule, the duplicate lists and the files in flight together are what the
    history of insertions says. */
module ProtocolFlight {
  import opened Types
  import opened Twins
  import opened Duplicates
  import opened Visiting
  import opened Grouping
  import opened Protocol
  import opened ProtocolQueue

  /** The entry that a worker has taken and neither failed to open nor inserted. */
  function Unopened(pc: Worker): Option<FileEntry> {
    match pc
    case Probing(e) => Some(e)
    case Want(sec) => if sec.Insert? then Some(sec.e) else None
    case In(sec) => if sec.Insert? then Some(sec.e) else None
    case _ => None
  }

  function Unseen(pc: Worker): multiset<FileEntry> {
    Bag(Unopened(pc))
  }

  function FlightOf(sec: Section): Option<FileMetadata> {
    if sec.List? || sec.PrintList? || sec.Append? then Some(sec.fm) else None
  }

  /** The file that a worker has inserted, has a twin for, and has not put on its list. */
  function Flying(pc: Worker): Option<FileMetadata> {
    match pc
    case Want(sec) => FlightOf(sec)
    case In(sec) => FlightOf(sec)
    case _ => None
  }

  function Flies(pc: Worker): multiset<FileMetadata> {
    Bag(Flying(pc))
  }

  ghost predicate SectionOk(cfg: Config, phase: Phase, sec: Section) {
    match sec
    case Insert(e, fm) => MetadataFromEntry(cfg.probes, e) == Some(fm)
    case List(e, fm, twin) => IsEarliest(cfg.hashes, phase.history, twin) && twin.sha256 == fm.sha256
    case PrintList(e, fm, twin) => fm.sha256 in phase.lists
    case Append(e, fm, twin) => fm.sha256 in phase.lists
    case _ => true
  }

  /** What a worker carries in its local variables is still right. */
  ghost predicate WorkerOk(cfg: Config, phase: Phase, pc: Worker) {
    match pc
    case Want(sec) => SectionOk(cfg, phase, sec)
    case In(sec) => SectionOk(cfg, phase, sec)
    case _ => true
  }

  ghost predicate AllOk(cfg: Config, s: State) {
    forall w :: 0 <= w < |s.workers| ==> WorkerOk(cfg, s.phase, s.workers[w])
  }

  ghost predicate Recorded(cfg: Config, s: State) {
    s.phase.history == Opened(cfg.probes, s.seen)
    && multiset(s.popped) == multiset(s.seen) + Total(s.workers, Unseen)
  }

  ghost predicate Filed(cfg: Config, s: State) {
    Grouped(cfg.hashes, s.phase.history, s.phase.lists, Total(s.workers, Flies))
  }

  // ----- History -----

  function Listed<T>(o: Option<T>): seq<T> {
    if o.Some? then [o.value] else []
  }

  /** The entry that this step opens in vain or inserts, and the one it takes. */
  function Saw(cfg: Config, pc: Worker): Option<FileEntry> {
    match pc
    case In(sec) => if sec.Insert? then Some(sec.e) else None
    case Probing(e) => if MetadataFromEntry(cfg.probes, e).None? then Some(e) else None
    case _ => None
  }

  function Took(s: State, pc: Worker): Option<FileEntry> {
    if pc == In(Pop) && s.queue != [] then Some(s.queue[0]) else None
  }

  lemma InsideSees(cfg: Config, s: State, w: nat, sec: Section)
    requires w < |s.workers|
    ensures var s' := Inside(cfg, s, w, sec);
            s'.seen == (if sec.Insert? then s.seen + [sec.e] else s.seen)
            && s'.phase.history == (if sec.Insert? then s.phase.history + [sec.fm] else s.phase.history)
            && s'.popped == (if sec.Pop? && s.queue != [] then s.popped + [s.queue[0]] else s.popped)
            && Unopened(s'.workers[w]) == (if sec.Pop? && s.queue != [] then Some(s.queue[0]) else None)
  {
    hide Twin, Hashed, WithHead, WithTail, MetadataFromEntry;
  }

  lemma WorkerSees(cfg: Config, s: State, w: nat)
    requires w < |s.workers|
    ensures var s', pc := WorkerStep(cfg, s, w), s.workers[w];
            s'.seen == s.seen + Listed(Saw(cfg, pc)) && s'.popped == s.popped + Listed(Took(s, pc))
            && Unopened(s'.workers[w]) ==
               (if Took(s, pc).Some? then Took(s, pc) else if Saw(cfg, pc).Some? then None else Unopened(pc))
            && s'.phase.history ==
               (if pc.In? && pc.sec.Insert? then s.phase.history + [pc.sec.fm] else s.phase.history)
  {
    hide Inside, MetadataFromEntry;
    match s.workers[w] {
      case In(sec) => InsideSees(cfg, s, w, sec);
      case _ =>
    }
  }

  lemma WorkerRecords(cfg: Config, s: State, w: nat)
    requires w < |s.workers| && Recorded(cfg, s) && WorkerOk(cfg, s.phase, s.workers[w])
    ensures Recorded(cfg, WorkerStep(cfg, s, w))
  {
    WorkerSees(cfg, s, w);
    WorkerOpens(cfg, s, w);
    WorkerBalances(cfg, s, w);
    hide WorkerStep, Total, Opened, Unseen, Saw, Took, Listed, WorkerOk;
    var s', pc := WorkerStep(cfg, s, w), s.workers[w];
    var took, saw := Listed(Took(s, pc)), Listed(Saw(cfg, pc));
    TotalUpdate(s.workers, Unseen, w, s'.workers[w]);
    Rebalance(multiset(s.popped), multiset(s.seen), Total(s.workers, Unseen), Total(s'.workers, Unseen),
              Unseen(pc), Unseen(s'.workers[w]), multiset(took), multiset(saw));
  }

  lemma ListedIs<T>(o: Option<T>)
    ensures Listed(o) == if o.Some? then [o.value] else []
  {
  }

  lemma WorkerOpens(cfg: Config, s: State, w: nat)
    requires w < |s.workers| && s.phase.history == Opened(cfg.probes, s.seen) && WorkerOk(cfg, s.phase, s.workers[w])
    ensures var s' := WorkerStep(cfg, s, w); s'.phase.history == Opened(cfg.probes, s'.seen)
  {
    WorkerSees(cfg, s, w);
    var pc := s.workers[w];
    var inserts := pc.In? && pc.sec.Insert?;
    assert inserts ==> MetadataFromEntry(cfg.probes, pc.sec.e) == Some(pc.sec.fm);
    var saw := Saw(cfg, pc);
    assert saw.Some? ==> if inserts then saw.value == pc.sec.e else MetadataFromEntry(cfg.probes, saw.value).None?;
    assert saw.None? ==> !inserts;
    hide *;
    if saw.Some? {
      OpenedSnoc(cfg.probes, s.seen, saw.value);
      ListedIs(saw);
    } else {
      ListedIs(saw);
      assert s.seen + [] == s.seen;
    }
  }

  lemma WorkerBalances(cfg: Config, s: State, w: nat)
    requires w < |s.workers|
    ensures var pc, pc' := s.workers[w], WorkerStep(cfg, s, w).workers[w];
            Unseen(pc) + multiset(Listed(Took(s, pc))) == Unseen(pc') + multiset(Listed(Saw(cfg, pc)))
  {
    WorkerSees(cfg, s, w);
    hide WorkerStep, MetadataFromEntry;
  }

  // ----- Lists -----

  lemma InsideFlies(cfg: Config, s: State, w: nat, sec: Section)
    requires w < |s.workers|
    ensures var s' := Inside(cfg, s, w, sec);
            match sec
            case Insert(e, fm) =>
              s'.phase.lists == s.phase.lists
              && Flying(s'.workers[w]) ==
                 if Twin(cfg.hashes, s.phase.history, fm).Some? then Some(Hashed(cfg.hashes, fm)) else None
            case List(e, fm, twin) =>
              s'.phase.lists == WithHead(s.phase.lists, fm, twin) && Flying(s'.workers[w]) == Some(fm)
            case Append(e, fm, twin) =>
              s'.phase.lists == WithTail(s.phase.lists, fm) && Flying(s'.workers[w]) == None
            case _ =>
              s'.phase.lists == s.phase.lists && Flying(s'.workers[w]) == FlightOf(sec)
  {
    hide Hashed, WithHead, WithTail, MetadataFromEntry;
  }

  lemma {:induction false} TotalContains<T>(ws: seq<Worker>, f: Worker -> multiset<T>, w: nat)
    requires w < |ws|
    ensures f(ws[w]) <= Total(ws, f)
  {
    if w < |ws| - 1 {
      TotalContains(ws[..|ws| - 1], f, w);
    }
  }

  /** The bag in flight after a worker went from `pc` to `pc'`. */
  lemma FlightAfter(s: State, s': State, w: nat)
    requires w < |s.workers| == |s'.workers| && s'.workers == s.workers[w := s'.workers[w]]
    ensures var (before, after) := (Flying(s.workers[w]), Flying(s'.workers[w]));
            var flight, flight' := Total(s.workers, Flies), Total(s'.workers, Flies);
            (before == after ==> flight' == flight)
            && (before.Some? ==> before.value in flight)
            && (before.Some? && after.None? ==> flight' == flight - multiset{before.value})
            && (before.None? && after.Some? ==> flight' == flight + multiset{after.value})
  {
    TotalUpdate(s.workers, Flies, w, s'.workers[w]);
    TotalContains(s.workers, Flies, w);
    hide Total;
    Cancel(Total(s'.workers, Flies), Total(s.workers, Flies), Flies(s.workers[w]), Flies(s'.workers[w]));
  }

  lemma Cancel<T>(flight': multiset<T>, flight: multiset<T>, before: multiset<T>, after: multiset<T>)
    requires flight' + before == flight + after
    ensures before == after ==> flight' == flight
    ensures after == multiset{} ==> flight' == flight - before
    ensures before == multiset{} ==> flight' == flight + after
  {
    assert flight' == (flight' + before) - before;
    assert flight == (flight + after) - after;
    assert flight' + multiset{} == flight' && flight + multiset{} == flight;
  }

  lemma InsertFiles(cfg: Config, s: State, w: nat, e: FileEntry, fm: FileMetadata)
    requires w < |s.workers| && s.workers[w] == In(Insert(e, fm)) && Filed(cfg, s)
    ensures Filed(cfg, Inside(cfg, s, w, Insert(e, fm)))
  {
    InsideSees(cfg, s, w, Insert(e, fm));
    InsideFlies(cfg, s, w, Insert(e, fm));
    assert Flying(s.workers[w]) == None;
    hide Inside, Grouped, Total, Twin, Hashed, MetadataFromEntry, Flying, FlightOf, Flies;
    FlightAfter(s, Inside(cfg, s, w, Insert(e, fm)), w);
    var flight := Total(s.workers, Flies);
    InsertKeepsGrouped(cfg.hashes, s.phase.history, s.phase.lists, flight, fm);
    assert flight + multiset{} == flight;
  }

  lemma ListFiles(cfg: Config, s: State, w: nat, e: FileEntry, fm: FileMetadata, twin: FileMetadata)
    requires w < |s.workers| && s.workers[w] == In(List(e, fm, twin)) && Filed(cfg, s)
    requires IsEarliest(cfg.hashes, s.phase.history, twin) && twin.sha256 == fm.sha256
    ensures Filed(cfg, Inside(cfg, s, w, List(e, fm, twin)))
  {
    InsideSees(cfg, s, w, List(e, fm, twin));
    InsideFlies(cfg, s, w, List(e, fm, twin));
    assert Flying(s.workers[w]) == Some(fm);
    hide Inside, Grouped, Total, IsEarliest, WithHead, WithTail, Twin, Hashed, MetadataFromEntry;
    hide Flying, FlightOf, Flies;
    FlightAfter(s, Inside(cfg, s, w, List(e, fm, twin)), w);
    HeadKeepsGrouped(cfg.hashes, s.phase.history, s.phase.lists, Total(s.workers, Flies), fm, twin);
  }

  lemma AppendFiles(cfg: Config, s: State, w: nat, e: FileEntry, fm: FileMetadata, twin: FileMetadata)
    requires w < |s.workers| && s.workers[w] == In(Append(e, fm, twin)) && Filed(cfg, s) && fm.sha256 in s.phase.lists
    ensures Filed(cfg, Inside(cfg, s, w, Append(e, fm, twin)))
  {
    InsideSees(cfg, s, w, Append(e, fm, twin));
    InsideFlies(cfg, s, w, Append(e, fm, twin));
    assert Flying(s.workers[w]) == Some(fm);
    hide Inside, Grouped, Total, WithHead, WithTail, Twin, Hashed, MetadataFromEntry, Flying, FlightOf, Flies;
    FlightAfter(s, Inside(cfg, s, w, Append(e, fm, twin)), w);
    TailKeepsGrouped(cfg.hashes, s.phase.history, s.phase.lists, Total(s.workers, Flies), fm);
  }

  lemma InsideFiles(cfg: Config, s: State, w: nat, sec: Section)
    requires w < |s.workers| && s.workers[w] == In(sec) && Filed(cfg, s) && SectionOk(cfg, s.phase, sec)
    ensures Filed(cfg, Inside(cfg, s, w, sec))
  {
    hide Inside, Grouped, Total, IsEarliest, MetadataFromEntry;
    match sec {
      case Insert(e, fm) => InsertFiles(cfg, s, w, e, fm);
      case List(e, fm, twin) => ListFiles(cfg, s, w, e, fm, twin);
      case Append(e, fm, twin) => AppendFiles(cfg, s, w, e, fm, twin);
      case _ =>
        InsideSees(cfg, s, w, sec);
        InsideFlies(cfg, s, w, sec);
        FlightAfter(s, Inside(cfg, s, w, sec), w);
    }
  }

  lemma OutsideKeepsPhase(cfg: Config, s: State, w: nat)
    requires w < |s.workers| && !s.workers[w].In?
    ensures var s' := WorkerStep(cfg, s, w);
            s'.phase == s.phase && Flying(s'.workers[w]) == Flying(s.workers[w])
  {
    hide MetadataFromEntry;
  }

  lemma WorkerFiles(cfg: Config, s: State, w: nat)
    requires w < |s.workers| && Filed(cfg, s) && WorkerOk(cfg, s.phase, s.workers[w])
    ensures Filed(cfg, WorkerStep(cfg, s, w))
  {
    hide Inside, Grouped, Total, MetadataFromEntry;
    if s.workers[w].In? {
      InsideFiles(cfg, s, w, s.workers[w].sec);
      return;
    }
    OutsideKeepsPhase(cfg, s, w);
    hide WorkerStep;
    FlightAfter(s, WorkerStep(cfg, s, w), w);
  }

  // ----- Local variables of the workers -----

  ghost predicate Grows(phase: Phase, phase': Phase) {
    phase.lists.Keys <= phase'.lists.Keys
    && (phase'.history == phase.history
        || exists fm :: phase'.history == phase.history + [fm])
  }

  lemma OkIsStable(cfg: Config, phase: Phase, phase': Phase, pc: Worker)
    requires WorkerOk(cfg, phase, pc) && Grows(phase, phase')
    ensures WorkerOk(cfg, phase', pc)
  {
    if (pc.Want? || pc.In?) && pc.sec.List? && phase'.history != phase.history {
      var fm :| phase'.history == phase.history + [fm];
      EarliestIsStable(cfg.hashes, phase.history, fm, pc.sec.twin);
    }
  }

  lemma InsideOk(cfg: Config, s: State, w: nat, sec: Section)
    requires w < |s.workers| && SectionOk(cfg, s.phase, sec)
    ensures var s' := Inside(cfg, s, w, sec);
            Grows(s.phase, s'.phase) && WorkerOk(cfg, s'.phase, s'.workers[w])
  {
    hide IsEarliest, Earliest, MetadataFromEntry;
    match sec {
      case Insert(e, fm) =>
        var twin := Twin(cfg.hashes, s.phase.history, fm);
        if twin.Some? {
          TwinIsEarliest(cfg.hashes, s.phase.history, fm);
          EarliestIsStable(cfg.hashes, s.phase.history, fm, twin.value);
        }
      case List(e, fm, twin) =>
      case _ =>
    }
  }

  lemma WorkerKeepsOk(cfg: Config, s: State, w: nat)
    requires w < |s.workers| && AllOk(cfg, s)
    ensures AllOk(cfg, WorkerStep(cfg, s, w))
  {
    var s' := WorkerStep(cfg, s, w);
    assert Grows(s.phase, s'.phase) && WorkerOk(cfg, s'.phase, s'.workers[w]) by {
      assert WorkerOk(cfg, s.phase, s.workers[w]);
      hide Inside, Grows, MetadataFromEntry, IsEarliest;
      if s.workers[w].In? {
        InsideOk(cfg, s, w, s.workers[w].sec);
      } else {
        OutsideKeepsOk(cfg, s, w);
      }
    }
    hide WorkerStep, WorkerOk, Grows;
    forall v | 0 <= v < |s.workers|
      ensures WorkerOk(cfg, s'.phase, s'.workers[v])
    {
      if v != w {
        OkIsStable(cfg, s.phase, s'.phase, s.workers[v]);
      }
    }
  }

  lemma OutsideKeepsOk(cfg: Config, s: State, w: nat)
    requires w < |s.workers| && !s.workers[w].In? && WorkerOk(cfg, s.phase, s.workers[w])
    ensures var s' := WorkerStep(cfg, s, w);
            Grows(s.phase, s'.phase) && WorkerOk(cfg, s'.phase, s'.workers[w])
  {
    hide MetadataFromEntry, IsEarliest;
  }

  // ----- Every schedule -----

  ghost predicate Consistent(cfg: Config, s: State) {
    AllOk(cfg, s) && Recorded(cfg, s) && Filed(cfg, s)
  }

  lemma WorkerKeepsConsistent(cfg: Config, s: State, w: nat)
    requires w < |s.workers| && Consistent(cfg, s)
    ensures Consistent(cfg, WorkerStep(cfg, s, w))
  {
    assert WorkerOk(cfg, s.phase, s.workers[w]);
    hide AllOk, Recorded, Filed, WorkerStep, WorkerOk;
    WorkerKeepsOk(cfg, s, w);
    WorkerRecords(cfg, s, w);
    WorkerFiles(cfg, s, w);
  }

  lemma ProducerKeepsConsistent(cfg: Config, s: State)
    requires Consistent(cfg, s)
    ensures Consistent(cfg, ProducerStep(cfg, s))
  {
    hide ProducerStep, WorkerOk, Grouped, Total, Opened;
    var s' := ProducerStep(cfg, s);
  }

  lemma InitIsConsistent(cfg: Config, entries: seq<FileEntry>, n: nat)
    ensures Consistent(cfg, Init(entries, n))
  {
    var s := Init(entries, n);
    TotalOfNothing(s.workers, Unseen);
    TotalOfNothing(s.workers, Flies);
  }

  lemma StepKeepsConsistent(cfg: Config, s: State, t: nat)
    requires Enabled(s, t) && Consistent(cfg, s)
    ensures Consistent(cfg, Step(cfg, s, t))
  {
    hide Consistent, ProducerStep, WorkerStep, ProducerCan, WorkerCan;
    if t == 0 {
      ProducerKeepsConsistent(cfg, s);
    } else {
      WorkerKeepsConsistent(cfg, s, t - 1);
    }
  }

  lemma {:induction false} AlwaysConsistent(cfg: Config, entries: seq<FileEntry>, n: nat, schedule: seq<nat>)
    ensures Consistent(cfg, Run(cfg, entries, n, schedule))
  {
    if schedule == [] {
      InitIsConsistent(cfg, entries, n);
      return;
    }
    LastStep(cfg, entries, n, schedule);
    hide Run, Consistent, Step, Enabled;
    var earlier := schedule[..|schedule| - 1];
    AlwaysConsistent(cfg, entries, n, earlier);
    if Enabled(Run(cfg, entries, n, earlier), schedule[|schedule| - 1]) {
      StepKeepsConsistent(cfg, Run(cfg, entries, n, earlier), schedule[|schedule| - 1]);
    }
  }
}
