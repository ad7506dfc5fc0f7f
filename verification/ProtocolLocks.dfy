/** Mutual exclusion and deadlock freedom of the first phase. */
module ProtocolLocks {
  import opened Protocol
  import opened Types
  import opened Twins
  import opened Visiting

  function ProducerHolds(p: Producer): set<Lock> {
    match p
    case InTotal => {ProgressLock}
    case InAppend => {QueueLock}
    case InFinish => {DoneLock}
    case _ => {}
  }

  /** A worker that prints a duplicate list waits for the progress lock, and holds it, while it
      holds the duplicates lock: the only nesting there is. */
  function WorkerHolds(pc: Worker): set<Lock> {
    match pc
    case In(sec) => {LockOf(sec)} + if sec.PrintList? then {DuplicatesLock} else {}
    case Want(sec) => if sec.PrintList? then {DuplicatesLock} else {}
    case _ => {}
  }

  function Held(s: State): seq<set<Lock>> {
    [ProducerHolds(s.producer)] + seq(|s.workers|, i requires 0 <= i < |s.workers| => WorkerHolds(s.workers[i]))
  }

  /** The mutexes agree with the program counters: the owner recorded in a mutex is the one
      thread whose critical section it protects. */
  ghost predicate LocksAgree(locks: map<Lock, nat>, held: seq<set<Lock>>) {
    (forall t, l :: 0 <= t < |held| && l in held[t] ==> l in locks && locks[l] == t)
    && forall l :: l in locks ==> locks[l] < |held| && l in held[locks[l]]
  }

  lemma TakeAgrees(locks: map<Lock, nat>, held: seq<set<Lock>>, t: nat, l: Lock)
    requires LocksAgree(locks, held) && t < |held| && l !in locks
    ensures LocksAgree(locks[l := t], held[t := held[t] + {l}])
  {
  }

  lemma DropAgrees(locks: map<Lock, nat>, held: seq<set<Lock>>, t: nat, l: Lock)
    requires LocksAgree(locks, held) && t < |held| && l in held[t]
    ensures LocksAgree(locks - {l}, held[t := held[t] - {l}])
  {
    var held' := held[t := held[t] - {l}];
    forall u, m | 0 <= u < |held| && m in held'[u]
      ensures m in locks - {l} && locks[m] == u
    {
      assert m in held[u] && locks[l] == t;
    }
  }

  lemma HeldUpdate(s: State, s': State, w: nat)
    requires w < |s.workers| == |s'.workers| && s'.producer == s.producer
    requires s'.workers == s.workers[w := s'.workers[w]]
    ensures Held(s') == Held(s)[w + 1 := WorkerHolds(s'.workers[w])]
  {
  }

  lemma InsideDrops(cfg: Config, s: State, w: nat, sec: Section)
    requires w < |s.workers|
    ensures var s' := Inside(cfg, s, w, sec);
            var before, after := WorkerHolds(In(sec)), WorkerHolds(s'.workers[w]);
            if sec.List? then s'.locks == s.locks && after == before
            else s'.locks == s.locks - {LockOf(sec)} && after == before - {LockOf(sec)}
  {
    hide Twin, Hashed, WithHead, WithTail;
    match sec {
      case Insert(e, fm) =>
      case List(e, fm, twin) =>
      case PrintList(e, fm, twin) =>
      case Append(e, fm, twin) =>
      case CountFound(e, fm, twin) =>
      case _ =>
    }
  }

  lemma WorkerKeepsLocks(cfg: Config, s: State, w: nat)
    requires w < |s.workers| && WorkerCan(s, w) && LocksAgree(s.locks, Held(s))
    ensures var s' := WorkerStep(cfg, s, w); LocksAgree(s'.locks, Held(s'))
  {
    hide LocksAgree, Held;
    var s' := WorkerStep(cfg, s, w);
    HeldUpdate(s, s', w);
    HeldUpdate(s, s, w);
    HeldAt(s, w);
    match s.workers[w] {
      case Want(sec) =>
        TakeAgrees(s.locks, Held(s), w + 1, LockOf(sec));
        assert WorkerHolds(In(sec)) == WorkerHolds(Want(sec)) + {LockOf(sec)};
      case In(sec) =>
        InsideDrops(cfg, s, w, sec);
        DropAgrees(s.locks, Held(s), w + 1, LockOf(sec));
      case _ =>
    }
  }

  lemma HeldAt(s: State, w: nat)
    requires w < |s.workers|
    ensures |Held(s)| == |s.workers| + 1 && Held(s)[w + 1] == WorkerHolds(s.workers[w])
  {
  }

  lemma HeldProducer(s: State, s': State)
    requires s'.workers == s.workers
    ensures |Held(s)| > 0 && Held(s)[0] == ProducerHolds(s.producer)
    ensures Held(s') == Held(s)[0 := ProducerHolds(s'.producer)]
  {
  }

  lemma ProducerKeepsLocks(cfg: Config, s: State)
    requires ProducerCan(s) && LocksAgree(s.locks, Held(s))
    ensures var s' := ProducerStep(cfg, s); LocksAgree(s'.locks, Held(s'))
  {
    hide LocksAgree, Held;
    var held := Held(s);
    HeldProducer(s, ProducerStep(cfg, s));
    match s.producer {
      case WantTotal =>
        TakeAgrees(s.locks, held, 0, ProgressLock);
        assert {} + {ProgressLock} == {ProgressLock};
      case WantAppend =>
        TakeAgrees(s.locks, held, 0, QueueLock);
        assert {} + {QueueLock} == {QueueLock};
      case WantFinish =>
        TakeAgrees(s.locks, held, 0, DoneLock);
        assert {} + {DoneLock} == {DoneLock};
      case InTotal =>
        DropAgrees(s.locks, held, 0, ProgressLock);
        assert {ProgressLock} - {ProgressLock} == {};
      case InAppend =>
        DropAgrees(s.locks, held, 0, QueueLock);
        assert {QueueLock} - {QueueLock} == {};
      case InFinish =>
        DropAgrees(s.locks, held, 0, DoneLock);
        assert {DoneLock} - {DoneLock} == {};
      case _ =>
        assert held[0 := {}] == held;
    }
  }

  /** In every reachable state the mutexes agree with the program counters. */
  lemma {:induction false} LocksAlwaysAgree(cfg: Config, entries: seq<FileEntry>, n: nat, schedule: seq<nat>)
    ensures var s := Run(cfg, entries, n, schedule); LocksAgree(s.locks, Held(s))
  {
    if schedule == [] {
      return;
    }
    hide LocksAgree, Held;
    var s := Run(cfg, entries, n, schedule[..|schedule| - 1]);
    var t := schedule[|schedule| - 1];
    LocksAlwaysAgree(cfg, entries, n, schedule[..|schedule| - 1]);
    if Enabled(s, t) {
      if t == 0 {
        ProducerKeepsLocks(cfg, s);
      } else {
        WorkerKeepsLocks(cfg, s, t - 1);
      }
    }
  }

  /** Two threads are never inside critical sections of the same lock. */
  lemma MutualExclusion(cfg: Config, entries: seq<FileEntry>, n: nat, schedule: seq<nat>, t: nat, u: nat)
    requires t < |Held(Run(cfg, entries, n, schedule))| && u < |Held(Run(cfg, entries, n, schedule))| && t != u
    ensures var held := Held(Run(cfg, entries, n, schedule)); held[t] !! held[u]
  {
    LocksAlwaysAgree(cfg, entries, n, schedule);
    var s := Run(cfg, entries, n, schedule);
    forall l | l in Held(s)[t]
      ensures l !in Held(s)[u]
    {
      assert s.locks[l] == t;
    }
  }

  lemma OwnerHolds(s: State, l: Lock)
    requires LocksAgree(s.locks, Held(s)) && l in s.locks
    ensures s.locks[l] <= |s.workers|
    ensures l in if s.locks[l] == 0 then ProducerHolds(s.producer) else WorkerHolds(s.workers[s.locks[l] - 1])
  {
    assert l in Held(s)[s.locks[l]];
  }

  /** The thread that holds a lock can move, or it waits for the progress lock, whose holder
      can move. */
  lemma HolderMoves(s: State, l: Lock) returns (t: nat)
    requires LocksAgree(s.locks, Held(s)) && l in s.locks
    ensures Enabled(s, t)
  {
    hide LocksAgree, Held;
    OwnerHolds(s, l);
    t := s.locks[l];
    if t > 0 && s.workers[t - 1].Want? && ProgressLock in s.locks {
      OwnerHolds(s, ProgressLock);
      t := s.locks[ProgressLock];
    }
  }

  lemma SomeoneMoves(s: State) returns (t: nat)
    requires LocksAgree(s.locks, Held(s)) && s.producer != Returned
    ensures Enabled(s, t)
  {
    if ProducerCan(s) {
      return 0;
    }
    match s.producer {
      case WantTotal => t := HolderMoves(s, ProgressLock);
      case WantAppend => t := HolderMoves(s, QueueLock);
      case WantFinish => t := HolderMoves(s, DoneLock);
      case Joining(i) =>
        if WorkerCan(s, i) {
          return i + 1;
        }
        t := HolderMoves(s, LockOf(s.workers[i].sec));
    }
  }

  /** No schedule deadlocks: until the producer has joined every worker and returned, some
      thread can move. */
  lemma DeadlockFreedom(cfg: Config, entries: seq<FileEntry>, n: nat, schedule: seq<nat>)
    ensures var s := Run(cfg, entries, n, schedule);
            s.producer == Returned || exists t :: Enabled(s, t)
  {
    LocksAlwaysAgree(cfg, entries, n, schedule);
    var s := Run(cfg, entries, n, schedule);
    if s.producer != Returned {
      var t := SomeoneMoves(s);
    }
  }
}
