/** No queued entry is lost, doubled or reordered by the workers; and exactly when entries are
    left behind at the join. */
module ProtocolQueue {
  import opened Types
  import opened Twins
  import opened Visiting
  import opened Protocol

  // ----- Bags over all workers -----

  function Total<T>(ws: seq<Worker>, f: Worker -> multiset<T>): multiset<T> {
    if ws == [] then multiset{} else Total(ws[..|ws| - 1], f) + f(ws[|ws| - 1])
  }

  lemma Shuffle<T>(a: multiset<T>, b: multiset<T>, c: multiset<T>)
    ensures (a + b) + c == (a + c) + b
  {
  }

  lemma {:induction false} TotalUpdate<T>(ws: seq<Worker>, f: Worker -> multiset<T>, w: nat, pc: Worker)
    requires w < |ws|
    ensures Total(ws[w := pc], f) + f(ws[w]) == Total(ws, f) + f(pc)
  {
    var n := |ws| - 1;
    if w == n {
      assert ws[w := pc][..n] == ws[..n];
      Shuffle(Total(ws[..n], f), f(pc), f(ws[w]));
    } else {
      assert ws[w := pc][..n] == ws[..n][w := pc];
      TotalUpdate(ws[..n], f, w, pc);
      Shuffle(Total(ws[w := pc][..n], f), f(ws[n]), f(ws[w]));
      Shuffle(Total(ws[..n], f), f(ws[n]), f(pc));
    }
  }

  lemma {:induction false} TotalOfNothing<T>(ws: seq<Worker>, f: Worker -> multiset<T>)
    requires forall i :: 0 <= i < |ws| ==> f(ws[i]) == multiset{}
    ensures Total(ws, f) == multiset{}
  {
    if ws != [] {
      TotalOfNothing(ws[..|ws| - 1], f);
    }
  }

  /** A number for every worker, added up. */
  function Tally(ws: seq<Worker>, f: Worker -> nat): nat {
    if ws == [] then 0 else Tally(ws[..|ws| - 1], f) + f(ws[|ws| - 1])
  }

  lemma {:induction false} TallyUpdate(ws: seq<Worker>, f: Worker -> nat, w: nat, pc: Worker)
    requires w < |ws|
    ensures Tally(ws[w := pc], f) + f(ws[w]) == Tally(ws, f) + f(pc)
  {
    var n := |ws| - 1;
    if w < n {
      assert ws[w := pc][..n] == ws[..n][w := pc];
      TallyUpdate(ws[..n], f, w, pc);
    } else {
      assert ws[w := pc][..n] == ws[..n];
    }
  }

  lemma {:induction false} TallyOfNothing(ws: seq<Worker>, f: Worker -> nat)
    requires forall i :: 0 <= i < |ws| ==> f(ws[i]) == 0
    ensures Tally(ws, f) == 0
  {
    if ws != [] {
      TallyOfNothing(ws[..|ws| - 1], f);
    }
  }

  function EntryOf(sec: Section): Option<FileEntry> {
    match sec
    case Pop => None
    case ReadDone => None
    case Tick => None
    case _ => Some(sec.e)
  }

  /** The entry that a worker has taken and not finished. */
  function Holding(pc: Worker): Option<FileEntry> {
    match pc
    case Want(sec) => EntryOf(sec)
    case In(sec) => EntryOf(sec)
    case Probing(e) => Some(e)
    case _ => None
  }

  function Bag<T>(o: Option<T>): multiset<T> {
    if o.Some? then multiset{o.value} else multiset{}
  }

  function Carries(pc: Worker): multiset<FileEntry> {
    Bag(Holding(pc))
  }

  /** Entries leave the queue in the order in which they came, and every entry taken is with
      exactly one worker or finished. */
  ghost predicate Conserved(entries: seq<FileEntry>, s: State) {
    entries == s.popped + s.queue + s.pending
    && multiset(s.popped) == multiset(s.finished) + Total(s.workers, Carries)
  }

  lemma Rebalance<T>(popped: multiset<T>, finished: multiset<T>, before: multiset<T>, after: multiset<T>,
                     old1: multiset<T>, new1: multiset<T>, taken: multiset<T>, ended: multiset<T>)
    requires popped == finished + before
    requires after + old1 == before + new1 && old1 + taken == new1 + ended
    ensures popped + taken == (finished + ended) + after
  {
    forall x
      ensures (popped + taken)[x] == ((finished + ended) + after)[x]
    {
      assert (after + old1)[x] == (before + new1)[x];
      assert (old1 + taken)[x] == (new1 + ended)[x];
    }
  }

  /** A worker goes on with what it has, takes the first entry of the queue, or finishes. */
  datatype Move = Keep | Take | End

  predicate Moves(s: State, s': State, before: Option<FileEntry>, after: Option<FileEntry>, m: Move) {
    s'.pending == s.pending
    && match m
       case Keep => after == before && (s'.popped, s'.queue, s'.finished) == (s.popped, s.queue, s.finished)
       case Take => before == None && s.queue != [] && after == Some(s.queue[0]) && s'.finished == s.finished
                    && s'.popped == s.popped + [s.queue[0]] && s'.queue == s.queue[1..]
       case End => before.Some? && after == None && (s'.popped, s'.queue) == (s.popped, s.queue)
                   && s'.finished == s.finished + [before.value]
  }

  function InsideMove(cfg: Config, s: State, sec: Section): Move {
    match sec
    case Pop => if s.queue != [] then Take else Keep
    case Report(e) => End
    case Insert(e, fm) => if Twin(cfg.hashes, s.phase.history, fm).Some? then Keep else End
    case Append(e, fm, twin) => if fm.cloneId != twin.cloneId then Keep else End
    case CountFound(e, fm, twin) => if cfg.verbosity > 1 && cfg.progress then Keep else End
    case PrintFound(e) => End
    case _ => Keep
  }

  lemma InsideMoves(cfg: Config, s: State, w: nat, sec: Section)
    requires w < |s.workers|
    ensures var s' := Inside(cfg, s, w, sec);
            Moves(s, s', EntryOf(sec), Holding(s'.workers[w]), InsideMove(cfg, s, sec))
  {
    hide Twin, Hashed, WithHead, WithTail;
  }

  /** What one worker step does to the entries. */
  lemma WorkerMoves(cfg: Config, s: State, w: nat) returns (m: Move)
    requires w < |s.workers|
    ensures var s' := WorkerStep(cfg, s, w);
            Moves(s, s', Holding(s.workers[w]), Holding(s'.workers[w]), m)
  {
    hide Inside, InsideMove, MetadataFromEntry;
    m := Keep;
    match s.workers[w] {
      case In(sec) =>
        InsideMoves(cfg, s, w, sec);
        m := InsideMove(cfg, s, sec);
      case Probing(e) =>
        if MetadataFromEntry(cfg.probes, e).None? && !cfg.progress {
          m := End;
        }
      case _ =>
    }
  }

  lemma WorkerConserves(cfg: Config, entries: seq<FileEntry>, s: State, w: nat)
    requires w < |s.workers| && Conserved(entries, s)
    ensures Conserved(entries, WorkerStep(cfg, s, w))
  {
    hide Total, WorkerStep;
    var m := WorkerMoves(cfg, s, w);
    var s' := WorkerStep(cfg, s, w);
    var taken := if m == Take then [s.queue[0]] else [];
    var ended := if m == End then [Holding(s.workers[w]).value] else [];
    TotalUpdate(s.workers, Carries, w, s'.workers[w]);
    Rebalance(multiset(s.popped), multiset(s.finished), Total(s.workers, Carries), Total(s'.workers, Carries),
              Carries(s.workers[w]), Carries(s'.workers[w]), multiset(taken), multiset(ended));
    assert s'.popped == s.popped + taken && s'.finished == s.finished + ended && s.queue == taken + s'.queue;
  }

  lemma ProducerConserves(cfg: Config, entries: seq<FileEntry>, s: State)
    requires Conserved(entries, s)
    ensures Conserved(entries, ProducerStep(cfg, s))
  {
    ProducerMoves(cfg, s);
    hide ProducerStep, Total;
    var s' := ProducerStep(cfg, s);
    assert s.popped + s.queue + s.pending == s.popped + (s.queue + s.pending);
    assert s'.popped + s'.queue + s'.pending == s'.popped + (s'.queue + s'.pending);
  }

  /** The producer only ever moves the first entry still to come to the end of the queue. */
  lemma ProducerMoves(cfg: Config, s: State)
    ensures var s' := ProducerStep(cfg, s);
            s'.queue + s'.pending == s.queue + s.pending && s'.finished == s.finished
  {
    if s.producer == InAppend && s.pending != [] {
      assert s.pending == [s.pending[0]] + s.pending[1..];
    }
  }

  /** In every reachable state each entry is in exactly one place, and in order. */
  lemma {:induction false} AlwaysConserved(cfg: Config, entries: seq<FileEntry>, n: nat, schedule: seq<nat>)
    ensures Conserved(entries, Run(cfg, entries, n, schedule))
  {
    if schedule == [] {
      TotalOfNothing(Init(entries, n).workers, Carries);
      return;
    }
    hide Conserved, ProducerStep, WorkerStep, Total, Carries, Enabled, Init;
    var s := Run(cfg, entries, n, schedule[..|schedule| - 1]);
    var t := schedule[|schedule| - 1];
    AlwaysConserved(cfg, entries, n, schedule[..|schedule| - 1]);
    if Enabled(s, t) {
      if t == 0 {
        ProducerConserves(cfg, entries, s);
      } else {
        WorkerConserves(cfg, entries, s, t - 1);
      }
    }
  }
}
