/** What the first phase counts, whatever the schedule: the duplicates found, and the progress. */
module ProtocolCounts {
  import opened Types
  import opened Twins
  import opened Visiting
  import opened Protocol
  import opened ProtocolQueue
  import opened ProtocolJoin

  // ----- Duplicates found -----

  predicate DiffersFromTwin(hashes: Hashes, history: seq<FileMetadata>, fm: FileMetadata) {
    var twin := Twin(hashes, history, fm);
    twin.Some? && fm.cloneId != twin.value.cloneId
  }

  /** The files that have a twin when they are inserted, with another clone id. */
  function Differing(hashes: Hashes, history: seq<FileMetadata>): nat {
    if history == [] then 0
    else
      var n := |history| - 1;
      Differing(hashes, history[..n]) + if DiffersFromTwin(hashes, history[..n], history[n]) then 1 else 0
  }

  lemma DifferingSnoc(hashes: Hashes, history: seq<FileMetadata>, fm: FileMetadata)
    ensures Differing(hashes, history + [fm]) ==
            Differing(hashes, history) + if DiffersFromTwin(hashes, history, fm) then 1 else 0
  {
    assert (history + [fm])[..|history|] == history;
  }

  /** The serial run counts just these. */
  lemma {:induction false} SerialFound(hashes: Hashes, files: seq<FileMetadata>)
    ensures Serial(hashes, files).found == Differing(hashes, files)
  {
    if files != [] {
      SerialFound(hashes, files[..|files| - 1]);
      SerialHistory(hashes, files[..|files| - 1]);
      hide Twin;
    }
  }

  /** A worker that has yet to count a duplicate. */
  function Uncounted(pc: Worker): nat {
    match pc
    case Want(sec) => UncountedIn(sec)
    case In(sec) => UncountedIn(sec)
    case _ => 0
  }

  function UncountedIn(sec: Section): nat {
    match sec
    case List(_, fm, twin) => if fm.cloneId != twin.cloneId then 1 else 0
    case PrintList(_, fm, twin) => if fm.cloneId != twin.cloneId then 1 else 0
    case Append(_, fm, twin) => if fm.cloneId != twin.cloneId then 1 else 0
    case CountFound(_, _, _) => 1
    case _ => 0
  }

  ghost predicate FoundRight(cfg: Config, s: State) {
    s.phase.found + Tally(s.workers, Uncounted) == Differing(cfg.hashes, s.phase.history)
  }

  lemma InsideFinds(cfg: Config, s: State, w: nat, sec: Section)
    requires w < |s.workers|
    ensures var s' := Inside(cfg, s, w, sec);
            s'.phase.found + Uncounted(s'.workers[w]) + Differing(cfg.hashes, s.phase.history) ==
            s.phase.found + UncountedIn(sec) + Differing(cfg.hashes, s'.phase.history)
  {
    hide Twin, WithHead, WithTail, Differing, Finishes;
    if sec.Insert? {
      DifferingSnoc(cfg.hashes, s.phase.history, sec.fm);
    }
  }

  lemma WorkerFinds(cfg: Config, s: State, w: nat)
    requires w < |s.workers| && FoundRight(cfg, s)
    ensures FoundRight(cfg, WorkerStep(cfg, s, w))
  {
    var s' := WorkerStep(cfg, s, w);
    assert s'.phase.found + Uncounted(s'.workers[w]) + Differing(cfg.hashes, s.phase.history) ==
           s.phase.found + Uncounted(s.workers[w]) + Differing(cfg.hashes, s'.phase.history) by {
      hide Inside, Differing, MetadataFromEntry, UncountedIn;
      match s.workers[w] {
        case In(sec) => InsideFinds(cfg, s, w, sec);
        case _ =>
      }
    }
    hide WorkerStep, Tally, Uncounted, Differing;
    TallyUpdate(s.workers, Uncounted, w, s'.workers[w]);
  }

  // ----- Progress -----

  /** A worker whose visit is over has yet to say so. */
  function Ticking(pc: Worker): nat {
    if pc == Want(Tick) || pc == In(Tick) then 1 else 0
  }

  /** The visits of which the progress is told. */
  function Told(cfg: Config, s: State): nat {
    if cfg.progress then |s.finished| else 0
  }

  ghost predicate ProgressRight(cfg: Config, s: State) {
    s.completed + Tally(s.workers, Ticking) == Told(cfg, s)
  }

  lemma InsideTicks(cfg: Config, s: State, w: nat, sec: Section)
    requires w < |s.workers|
    ensures var s' := Inside(cfg, s, w, sec);
            s'.completed + Ticking(s'.workers[w]) + Told(cfg, s) == s.completed + Ticking(In(sec)) + Told(cfg, s')
  {
    hide Twin, WithHead, WithTail, Hashed;
  }

  lemma WorkerTicks(cfg: Config, s: State, w: nat)
    requires w < |s.workers| && ProgressRight(cfg, s)
    ensures ProgressRight(cfg, WorkerStep(cfg, s, w))
  {
    var s' := WorkerStep(cfg, s, w);
    assert s'.completed + Ticking(s'.workers[w]) + Told(cfg, s) ==
           s.completed + Ticking(s.workers[w]) + Told(cfg, s') by {
      hide Inside, MetadataFromEntry;
      match s.workers[w] {
        case In(sec) => InsideTicks(cfg, s, w, sec);
        case _ =>
      }
    }
    hide WorkerStep, Tally, Ticking, Told;
    TallyUpdate(s.workers, Ticking, w, s'.workers[w]);
  }

  predicate Announced(p: Producer) {
    p == WantAppend || p == InAppend
  }

  /** The entries announced are those queued, and the next one when it is about to be. */
  predicate TotalRight(cfg: Config, entries: seq<FileEntry>, s: State) {
    (Announced(s.producer) || s.producer == WantTotal || s.producer == InTotal ==> s.pending != [])
    && if cfg.progress then s.total + |s.pending| == |entries| + if Announced(s.producer) then 1 else 0
       else s.total == 0 && s.producer != WantTotal && s.producer != InTotal
  }

  lemma ProducerAnnounces(cfg: Config, entries: seq<FileEntry>, s: State)
    requires TotalRight(cfg, entries, s)
    ensures TotalRight(cfg, entries, ProducerStep(cfg, s))
  {
    var s' := ProducerStep(cfg, s);
    match s.producer {
      case InAppend => assert s'.producer == Walking && s'.pending == s.pending[1..];
      case InTotal => assert s'.producer == WantAppend && s'.pending == s.pending;
      case _ => assert s'.pending == s.pending;
    }
    hide ProducerStep;
  }

  // ----- Every state -----

  ghost predicate Counted(cfg: Config, entries: seq<FileEntry>, s: State) {
    FoundRight(cfg, s) && ProgressRight(cfg, s) && TotalRight(cfg, entries, s)
  }

  lemma StepKeepsCounted(cfg: Config, entries: seq<FileEntry>, s: State, t: nat)
    requires Enabled(s, t) && Counted(cfg, entries, s)
    ensures Counted(cfg, entries, Step(cfg, s, t))
  {
    hide FoundRight, ProgressRight, TotalRight, ProducerStep, WorkerStep, ProducerCan, WorkerCan;
    if t == 0 {
      ProducerAnnounces(cfg, entries, s);
      ProducerKeepsCounts(cfg, s);
    } else {
      WorkerFinds(cfg, s, t - 1);
      WorkerTicks(cfg, s, t - 1);
      WorkerKeepsTotal(cfg, entries, s, t - 1);
    }
  }

  lemma ProducerKeepsCounts(cfg: Config, s: State)
    requires FoundRight(cfg, s) && ProgressRight(cfg, s)
    ensures FoundRight(cfg, ProducerStep(cfg, s)) && ProgressRight(cfg, ProducerStep(cfg, s))
  {
    hide ProducerStep;
  }

  lemma WorkerKeepsTotal(cfg: Config, entries: seq<FileEntry>, s: State, w: nat)
    requires w < |s.workers| && TotalRight(cfg, entries, s)
    ensures TotalRight(cfg, entries, WorkerStep(cfg, s, w))
  {
    hide WorkerStep;
  }

  /** In every reachable state the duplicates found and those that a worker has yet to count are all
      files whose twin had another clone id, and the progress is that of the visits. */
  lemma {:induction false} AlwaysCounted(cfg: Config, entries: seq<FileEntry>, n: nat, schedule: seq<nat>)
    ensures Counted(cfg, entries, Run(cfg, entries, n, schedule))
  {
    if schedule == [] {
      TallyOfNothing(Init(entries, n).workers, Uncounted);
      TallyOfNothing(Init(entries, n).workers, Ticking);
      return;
    }
    LastStep(cfg, entries, n, schedule);
    hide Run, Counted, Step, Enabled;
    var earlier := schedule[..|schedule| - 1];
    var s, t := Run(cfg, entries, n, earlier), schedule[|schedule| - 1];
    AlwaysCounted(cfg, entries, n, earlier);
    if Enabled(s, t) {
      StepKeepsCounted(cfg, entries, s, t);
    }
  }

  /** Once the producer has joined every worker, no duplicate is still uncounted: those found are the
      files seen whose twin had another clone id, as the serial run over them would count; and if
      progress is shown, every entry has been announced, and every visit told. */
  lemma CountsAtJoin(cfg: Config, entries: seq<FileEntry>, n: nat, schedule: seq<nat>)
    requires Run(cfg, entries, n, schedule).producer == Returned
    ensures var s := Run(cfg, entries, n, schedule);
            s.phase.found == Differing(cfg.hashes, s.phase.history)
            && s.phase.found == Serial(cfg.hashes, s.phase.history).found
            && s.total == (if cfg.progress then |entries| else 0)
            && s.completed == if cfg.progress then |s.popped| else 0
  {
    var s := Run(cfg, entries, n, schedule);
    hide Run, Serial, Differing, Conserved;
    AlwaysCounted(cfg, entries, n, schedule);
    AlwaysJoinable(cfg, entries, n, schedule);
    QueueEmptyAtJoin(cfg, entries, n, schedule);
    TallyOfNothing(s.workers, Uncounted);
    TallyOfNothing(s.workers, Ticking);
    SerialFound(cfg.hashes, s.phase.history);
    assert |multiset(s.finished)| == |s.finished| && |multiset(s.popped)| == |s.popped|;
  }
}
