/** From every reachable state the first phase can be brought to its end, so no thread is ever stuck
    for good; and once `done` is set, every step of every thread brings the end closer. */
module ProtocolProgress {
  import opened Types
  import opened Twins
  import opened Visiting
  import opened Protocol
  import opened ProtocolLocks
  import opened ProtocolQueue
  import opened ProtocolJoin

  // ----- After `done` is set -----

  /** The steps that a worker has before it polls the queue, finds it empty and exits. */
  function SectionRank(sec: Section): nat {
    match sec
    case ReadDone => 1
    case Pop => 3
    case Tick => 5
    case PrintFound(_) => 7
    case Report(_) => 7
    case CountFound(_, _, _) => 9
    case Append(_, _, _) => 11
    case PrintList(_, _, _) => 13
    case List(_, _, _) => 15
    case Insert(_, _) => 17
  }

  function Rank(pc: Worker): nat {
    match pc
    case Exited => 0
    case Start => 1
    case In(sec) => SectionRank(sec)
    case Want(sec) => SectionRank(sec) + 1
    case Probing(_) => 19
  }

  /** The steps that are left at most. */
  function Left(s: State): nat {
    20 * |s.queue| + Tally(s.workers, Rank) +
    match s.producer
    case Joining(i) => if i <= |s.workers| then |s.workers| + 1 - i else 0
    case _ => 0
  }

  lemma InsideRanks(cfg: Config, s: State, w: nat, sec: Section)
    requires w < |s.workers| && s.done
    ensures var s' := Inside(cfg, s, w, sec);
            20 * |s'.queue| + Rank(s'.workers[w]) < 20 * |s.queue| + SectionRank(sec)
  {
    hide Twin, Hashed, WithHead, WithTail;
    match sec {
      case Pop =>
      case Insert(e, fm) =>
      case _ =>
    }
  }

  lemma WorkerRanks(cfg: Config, s: State, w: nat)
    requires w < |s.workers| && s.done && s.workers[w] != Exited
    ensures var s' := WorkerStep(cfg, s, w);
            20 * |s'.queue| + Rank(s'.workers[w]) < 20 * |s.queue| + Rank(s.workers[w])
  {
    hide Inside, MetadataFromEntry;
    match s.workers[w] {
      case In(sec) => InsideRanks(cfg, s, w, sec);
      case _ =>
    }
  }

  /** Once `done` is set, every step of every thread leaves fewer steps. */
  lemma EveryStepCounts(cfg: Config, s: State, t: nat)
    requires Enabled(s, t) && s.done && Joinable(s)
    ensures Left(Step(cfg, s, t)) < Left(s)
  {
    hide WorkerStep, Rank, Tally;
    if t > 0 {
      WorkerRanks(cfg, s, t - 1);
      TallyUpdate(s.workers, Rank, t - 1, Step(cfg, s, t).workers[t - 1]);
    }
  }

  // ----- Before that -----

  /** The steps that the producer has before it sets `done`. */
  function BeforeDone(s: State): nat {
    var n := |s.pending|;
    var busy := 6 * (if n == 0 then 0 else n - 1);
    match s.producer
    case Walking => 6 * n + 3
    case WantTotal => busy + 7
    case InTotal => busy + 6
    case WantAppend => busy + 5
    case InAppend => busy + 4
    case WantFinish => 2
    case InFinish => 1
    case _ => 0
  }

  lemma ProducerAdvances(cfg: Config, s: State)
    requires ProducerCan(s) && !s.producer.Joining?
    ensures BeforeDone(ProducerStep(cfg, s)) < BeforeDone(s)
  {
  }

  predicate Waits(p: Producer, l: Lock) {
    match p
    case WantTotal => l == ProgressLock
    case WantAppend => l == QueueLock
    case WantFinish => l == DoneLock
    case _ => false
  }

  lemma InsideLeavesProducer(cfg: Config, s: State, w: nat, sec: Section)
    requires w < |s.workers|
    ensures var s' := Inside(cfg, s, w, sec);
            s'.pending == s.pending && s'.done == s.done && s'.producer == s.producer
  {
    hide Twin, Hashed, WithHead, WithTail;
  }

  lemma OwnerIsInside(s: State, l: Lock) returns (t: nat)
    requires LocksAgree(s.locks, Held(s)) && Waits(s.producer, l) && l in s.locks
    ensures 0 < t <= |s.workers| && s.workers[t - 1].In? && LockOf(s.workers[t - 1].sec) == l
    ensures !s.workers[t - 1].sec.List?
  {
    OwnerHolds(s, l);
    hide LocksAgree, Held;
    t := s.locks[l];
  }

  /** Whoever holds the lock that the producer waits for can move, and then the producer can. */
  lemma HolderReleases(cfg: Config, s: State, l: Lock) returns (t: nat)
    requires LocksAgree(s.locks, Held(s)) && Waits(s.producer, l) && l in s.locks
    ensures Enabled(s, t)
    ensures var s' := Step(cfg, s, t); ProducerCan(s') && BeforeDone(s') == BeforeDone(s) && s'.done == s.done
  {
    t := OwnerIsInside(s, l);
    hide Inside, LocksAgree, Held, WorkerHolds;
    var sec := s.workers[t - 1].sec;
    InsideDrops(cfg, s, t - 1, sec);
    InsideLeavesProducer(cfg, s, t - 1, sec);
    hide LockOf;
  }

  // ----- To the end -----

  function Stuck(s: State): nat {
    if s.done || ProducerCan(s) then 0 else 1
  }

  /** A step that brings the end closer. */
  lemma GoodStep(cfg: Config, s: State) returns (t: nat)
    requires LocksAgree(s.locks, Held(s)) && Joinable(s) && s.producer != Returned
    ensures Enabled(s, t)
    ensures var s' := Step(cfg, s, t);
            BeforeDone(s') < BeforeDone(s)
            || (BeforeDone(s') == BeforeDone(s) && Stuck(s') < Stuck(s))
            || (BeforeDone(s') == BeforeDone(s) && Stuck(s') == Stuck(s) && Left(s') < Left(s))
  {
    if s.done {
      t := SomeoneMoves(s);
      EveryStepCounts(cfg, s, t);
      DoneStays(cfg, s, t);
      hide LocksAgree, Held, Joinable, Step, Enabled, Left;
    } else if ProducerCan(s) {
      t := 0;
      ProducerAdvances(cfg, s);
    } else {
      var l: Lock :| Waits(s.producer, l) && l in s.locks;
      t := HolderReleases(cfg, s, l);
      hide LocksAgree, Held, Joinable, Step, Enabled, Left, BeforeDone;
    }
  }

  lemma DoneStays(cfg: Config, s: State, t: nat)
    requires Enabled(s, t) && s.done && Joinable(s)
    ensures Step(cfg, s, t).done && BeforeDone(Step(cfg, s, t)) == BeforeDone(s)
  {
    hide Inside;
    if t > 0 && s.workers[t - 1].In? {
      InsideLeavesProducer(cfg, s, t - 1, s.workers[t - 1].sec);
    }
  }

  /** Every run can be brought to its end: however the threads were scheduled so far, some schedule
      goes on from there to where the producer has joined all workers and returns. */
  lemma {:induction false} EveryRunCanFinish(cfg: Config, entries: seq<FileEntry>, n: nat, schedule: seq<nat>)
    returns (more: seq<nat>)
    ensures Run(cfg, entries, n, schedule + more).producer == Returned
    decreases BeforeDone(Run(cfg, entries, n, schedule)), Stuck(Run(cfg, entries, n, schedule)),
              Left(Run(cfg, entries, n, schedule))
  {
    hide *;
    var s := Run(cfg, entries, n, schedule);
    if s.producer == Returned {
      more := [];
      assert schedule + more == schedule;
    } else {
      LocksAlwaysAgree(cfg, entries, n, schedule);
      AlwaysJoinable(cfg, entries, n, schedule);
      var t := GoodStep(cfg, s);
      RunSnoc(cfg, entries, n, schedule, t);
      var rest := EveryRunCanFinish(cfg, entries, n, schedule + [t]);
      more := [t] + rest;
      assert schedule + more == (schedule + [t]) + rest;
    }
  }
}
