/** What is true when the producer has joined every worker: which entries were visited, and
    exactly when none was left in the queue. */
module ProtocolJoin {
  import opened Types
  import opened Twins
  import opened Visiting
  import opened Protocol
  import opened ProtocolQueue

  /** The worker will look at the queue again before it can exit. */
  predicate Busy(pc: Worker) {
    match pc
    case Start => false
    case Exited => false
    case Want(sec) => !sec.ReadDone?
    case In(sec) => !sec.ReadDone?
    case Probing(e) => true
  }

  predicate AllPushed(p: Producer) {
    p == WantFinish || p == InFinish || p.Joining? || p == Returned
  }

  predicate AnyBusy(ws: seq<Worker>) {
    exists w :: 0 <= w < |ws| && Busy(ws[w])
  }

  ghost predicate Joinable(s: State) {
    (s.done <==> s.producer.Joining? || s.producer == Returned)
    && (AllPushed(s.producer) ==> s.pending == [])
    && (forall w :: 0 <= w < |s.workers| && s.workers[w] == Exited ==> s.done)
    && (s.latePoll ==> s.done && s.queue == [])
    && (s.done ==> s.poppedAtDone <= |s.popped|)
    && (s.done && s.poppedAtDone < |s.popped| ==> s.latePoll || AnyBusy(s.workers))
    && (s.producer.Joining? ==>
          s.producer.i <= |s.workers| && forall j :: 0 <= j < s.producer.i ==> s.workers[j] == Exited)
    && (s.producer == Returned ==> forall j :: 0 <= j < |s.workers| ==> s.workers[j] == Exited)
  }

  predicate Polls(s: State, w: nat)
    requires w < |s.workers|
  {
    s.workers[w] == In(Pop) && s.queue == []
  }

  lemma InsidePolls(cfg: Config, s: State, w: nat, sec: Section)
    requires w < |s.workers| && s.workers[w] == In(sec)
    ensures var s' := Inside(cfg, s, w, sec);
            s'.done == s.done && s'.poppedAtDone == s.poppedAtDone
            && s'.latePoll == (s.latePoll || (Polls(s, w) && s.done))
            && (Busy(s.workers[w]) && !Polls(s, w) ==> Busy(s'.workers[w]))
            && (s'.workers[w] == Exited ==> s.done)
  {
    hide Twin, Hashed, WithHead, WithTail;
  }

  lemma WorkerPolls(cfg: Config, s: State, w: nat)
    requires w < |s.workers|
    ensures var s' := WorkerStep(cfg, s, w);
            s'.done == s.done && s'.poppedAtDone == s.poppedAtDone
            && s'.latePoll == (s.latePoll || (Polls(s, w) && s.done))
            && (Busy(s.workers[w]) && !Polls(s, w) ==> Busy(s'.workers[w]))
            && (s.workers[w] == Exited ==> s' == s)
            && (s'.workers[w] == Exited ==> s.workers[w] == Exited || s.done)
  {
    hide Inside, MetadataFromEntry;
    match s.workers[w] {
      case In(sec) => InsidePolls(cfg, s, w, sec);
      case _ =>
    }
  }

  lemma WorkerKeepsJoinable(cfg: Config, s: State, w: nat)
    requires w < |s.workers| && Joinable(s)
    ensures Joinable(WorkerStep(cfg, s, w))
  {
    var m := WorkerMoves(cfg, s, w);
    WorkerPolls(cfg, s, w);
    hide WorkerStep;
    var s' := WorkerStep(cfg, s, w);
    if s.done && s.poppedAtDone < |s'.popped| && !s'.latePoll {
      assert AnyBusy(s'.workers) by {
        if m == Take {
          assert Busy(s.workers[w]);
          assert Busy(s'.workers[w]);
        } else {
          var v :| 0 <= v < |s.workers| && Busy(s.workers[v]);
          assert Busy(s'.workers[v]);
        }
      }
    }
  }

  lemma ProducerKeepsJoinable(cfg: Config, s: State)
    requires ProducerCan(s) && Joinable(s)
    ensures Joinable(ProducerStep(cfg, s))
  {
  }

  lemma StepKeepsJoinable(cfg: Config, s: State, t: nat)
    requires Enabled(s, t) && Joinable(s)
    ensures Joinable(Step(cfg, s, t))
  {
    hide Joinable, ProducerStep, WorkerStep, ProducerCan, WorkerCan;
    if t == 0 {
      ProducerKeepsJoinable(cfg, s);
    } else {
      WorkerKeepsJoinable(cfg, s, t - 1);
    }
  }

  lemma {:induction false} AlwaysJoinable(cfg: Config, entries: seq<FileEntry>, n: nat, schedule: seq<nat>)
    ensures Joinable(Run(cfg, entries, n, schedule))
  {
    if schedule == [] {
      return;
    }
    LastStep(cfg, entries, n, schedule);
    hide Run, Joinable, Step, Enabled;
    var earlier := schedule[..|schedule| - 1];
    AlwaysJoinable(cfg, entries, n, earlier);
    if Enabled(Run(cfg, entries, n, earlier), schedule[|schedule| - 1]) {
      StepKeepsJoinable(cfg, Run(cfg, entries, n, earlier), schedule[|schedule| - 1]);
    }
  }

  /** A worker that finds the queue empty goes on polling until `done` is set: none exits before. */
  lemma NoneLeavesEarly(cfg: Config, entries: seq<FileEntry>, n: nat, schedule: seq<nat>, w: nat)
    requires w < n
    ensures var s := Run(cfg, entries, n, schedule);
            w < |s.workers| && (s.workers[w] == Exited ==> s.done && s.pending == [])
  {
    AlwaysJoinable(cfg, entries, n, schedule);
    SameWorkers(cfg, entries, n, schedule);
  }

  lemma {:induction false} SameWorkers(cfg: Config, entries: seq<FileEntry>, n: nat, schedule: seq<nat>)
    ensures |Run(cfg, entries, n, schedule).workers| == n
  {
    if schedule != [] {
      SameWorkers(cfg, entries, n, schedule[..|schedule| - 1]);
      hide Enabled, Step;
    }
  }

  /** Where no worker has moved before `done` was set. */
  predicate Unstarted(entries: seq<FileEntry>, s: State) {
    s.done && s.popped == [] && s.phase == Phase([], map[], 0)
    && forall w :: 0 <= w < |s.workers| ==> s.workers[w] == Start || s.workers[w] == Exited
  }

  lemma StaysUnstarted(cfg: Config, entries: seq<FileEntry>, s: State, t: nat)
    requires Enabled(s, t) && Unstarted(entries, s)
    ensures Unstarted(entries, Step(cfg, s, t))
  {
    hide MetadataFromEntry, Inside;
  }

  lemma UnstartedQueue(entries: seq<FileEntry>, s: State)
    requires Unstarted(entries, s) && Joinable(s) && Conserved(entries, s)
    ensures s.queue == entries && s.phase.lists == map[]
  {
    hide Total;
    assert s.pending == [];
    assert s.popped + s.queue + s.pending == s.queue;
  }

  /** A worker that is started when `done` is set leaves without a look at the queue: if that is so of
      all, nothing is ever visited, and every entry is left behind. */
  lemma {:induction false} StartedTooLate(cfg: Config, entries: seq<FileEntry>, n: nat,
                                          before: seq<nat>, after: seq<nat>)
    requires Unstarted(entries, Run(cfg, entries, n, before))
    ensures var s := Run(cfg, entries, n, before + after);
            Unstarted(entries, s) && s.queue == entries && s.phase.lists == map[]
  {
    hide Run, Unstarted;
    if after == [] {
      assert before + after == before;
    } else {
      var m := |after| - 1;
      assert before + after == (before + after[..m]) + [after[m]];
      StartedTooLate(cfg, entries, n, before, after[..m]);
      RunSnoc(cfg, entries, n, before + after[..m], after[m]);
      hide Step, Enabled;
      var s := Run(cfg, entries, n, before + after[..m]);
      if Enabled(s, after[m]) {
        StaysUnstarted(cfg, entries, s, after[m]);
      }
    }
    AlwaysJoinable(cfg, entries, n, before + after);
    AlwaysConserved(cfg, entries, n, before + after);
    UnstartedQueue(entries, Run(cfg, entries, n, before + after));
  }

  /** After the join nothing is half visited, and the queue is empty exactly when some worker
      found it empty after `done` was set, or every entry had been taken by then. */
  lemma QueueEmptyAtJoin(cfg: Config, entries: seq<FileEntry>, n: nat, schedule: seq<nat>)
    requires Run(cfg, entries, n, schedule).producer == Returned
    ensures var s := Run(cfg, entries, n, schedule);
            multiset(s.finished) == multiset(s.popped)
            && (s.queue == [] <==> s.latePoll || s.poppedAtDone == |entries|)
            && (s.queue == [] ==> s.popped == entries)
  {
    var s := Run(cfg, entries, n, schedule);
    AlwaysJoinable(cfg, entries, n, schedule);
    AlwaysConserved(cfg, entries, n, schedule);
    TotalOfNothing(s.workers, Carries);
    assert !AnyBusy(s.workers);
    assert |entries| == |s.popped| + |s.queue|;
  }

  // ----- The failing family is not empty -----

  lemma RunSnoc(cfg: Config, entries: seq<FileEntry>, n: nat, schedule: seq<nat>, t: nat)
    ensures Run(cfg, entries, n, schedule + [t]) ==
            var s := Run(cfg, entries, n, schedule);
            if Enabled(s, t) then Step(cfg, s, t) else s
  {
    assert (schedule + [t])[..|schedule|] == schedule;
  }

  lemma NoStepYet(cfg: Config, entries: seq<FileEntry>, n: nat)
    ensures Run(cfg, entries, n, []) == Init(entries, n)
  {
  }

  lemma TakeStep(cfg: Config, entries: seq<FileEntry>, n: nat, schedule: seq<nat>, t: nat, s: State, s': State)
    requires Run(cfg, entries, n, schedule) == s && Enabled(s, t) && Step(cfg, s, t) == s'
    ensures Run(cfg, entries, n, schedule + [t]) == s'
  {
    RunSnoc(cfg, entries, n, schedule, t);
  }

  /** The worker polls the empty queue, the producer queues the entry and sets `done`, and only
      then does the worker read `done`: it exits, and the entry is never visited. */
  lemma EntryLeftBehind(cfg: Config, e: FileEntry) returns (schedule: seq<nat>)
    requires !cfg.progress
    ensures var s := Run(cfg, [e], 1, schedule); s.producer == Returned && s.queue == [e]
  {
    hide Run;
    var s0 := Init([e], 1);
    NoStepYet(cfg, [e], 1);
    assert [] + [1] == [1];
    assert s0.workers == [Start];
    var polled := s0.(workers := [Want(ReadDone)]);
    TakeStep(cfg, [e], 1, [], 1, s0, s0.(workers := [Want(Pop)]));
    TakeStep(cfg, [e], 1, [1], 1, s0.(workers := [Want(Pop)]),
             s0.(workers := [In(Pop)], locks := map[QueueLock := 1]));
    schedule := [1] + [1];
    assert map[QueueLock := 1] - {QueueLock} == map[];
    TakeStep(cfg, [e], 1, schedule, 1, s0.(workers := [In(Pop)], locks := map[QueueLock := 1]), polled);
    schedule := schedule + [1];
    schedule := ProducerFinishes(cfg, e, schedule, polled);
    var pushed := polled.(pending := [], queue := [e], done := true, producer := Joining(0));
    TakeStep(cfg, [e], 1, schedule, 1, pushed, pushed.(workers := [In(ReadDone)], locks := map[DoneLock := 1]));
    schedule := schedule + [1];
    assert map[DoneLock := 1] - {DoneLock} == map[];
    TakeStep(cfg, [e], 1, schedule, 1, pushed.(workers := [In(ReadDone)], locks := map[DoneLock := 1]),
             pushed.(workers := [Exited]));
    schedule := schedule + [1];
    TakeStep(cfg, [e], 1, schedule, 0,
             pushed.(workers := [Exited]), pushed.(workers := [Exited], producer := Joining(1)));
    schedule := schedule + [0];
    TakeStep(cfg, [e], 1, schedule, 0, pushed.(workers := [Exited], producer := Joining(1)),
             pushed.(workers := [Exited], producer := Returned));
    schedule := schedule + [0];
  }

  /** Six producer steps push the only entry and set `done`. */
  lemma ProducerFinishes(cfg: Config, e: FileEntry, before: seq<nat>, s: State) returns (schedule: seq<nat>)
    requires !cfg.progress && Run(cfg, [e], 1, before) == s
    requires s.producer == Walking && s.pending == [e] && s.queue == [] && s.locks == map[] && s.popped == []
    requires s.poppedAtDone == 0
    ensures Run(cfg, [e], 1, schedule) == s.(pending := [], queue := [e], done := true, producer := Joining(0))
  {
    hide Run;
    var walked := s.(pending := [], queue := [e]);
    assert map[QueueLock := 0] - {QueueLock} == map[] && map[DoneLock := 0] - {DoneLock} == map[];
    TakeStep(cfg, [e], 1, before, 0, s, s.(producer := WantAppend));
    TakeStep(cfg, [e], 1, before + [0], 0, s.(producer := WantAppend),
             s.(producer := InAppend, locks := map[QueueLock := 0]));
    schedule := before + [0] + [0];
    TakeStep(cfg, [e], 1, schedule, 0, s.(producer := InAppend, locks := map[QueueLock := 0]), walked);
    schedule := schedule + [0];
    TakeStep(cfg, [e], 1, schedule, 0, walked, walked.(producer := WantFinish));
    schedule := schedule + [0];
    TakeStep(cfg, [e], 1, schedule, 0, walked.(producer := WantFinish),
             walked.(producer := InFinish, locks := map[DoneLock := 0]));
    schedule := schedule + [0];
    TakeStep(cfg, [e], 1, schedule, 0, walked.(producer := InFinish, locks := map[DoneLock := 0]),
             walked.(done := true, producer := Joining(0)));
    schedule := schedule + [0];
  }
}
