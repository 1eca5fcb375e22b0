/** The group-commit protocol of src/fs/cache.c (begin_op, sync, end_op, commit,
restore_log) as a state machine over every interleaving of any number of operations,
with a crash possible between any two device writes.

A block write is one step. The contents of a block are changed and synced in one step,
because its holder keeps it locked in between. Waiting is the absence of an enabled
step. */
module LogProtocol {
  import opened WriteAheadLog

  /** An atomic operation begun since the last checkpoint. `Ended` ones sleep in end_op;
      `Escaped` ones were killed there and returned early; `Committer` runs commit. */
  datatype Phase = Running | Ended | Escaped | Committer
  datatype Op = Op(rm: nat, done: nat, synced: set<nat>, phase: Phase)

  datatype Mode =
    | Serving
    | Committing(c: Commit, base: Disk, k: nat, unpinned: bool)
    | Recovering(found: Disk, k: nat)

  /** `dirty` are the pinned blocks; `logical` is the disk as its users see it, and
      `durable` the logical disk at the latest commit point. */
  datatype State = State(
    disk: Disk,
    header: Header,
    dirty: map<nat, Data>,
    ops: seq<Op>,
    started: int,
    opCount: int,
    mode: Mode,
    logical: Disk,
    durable: Disk)

  datatype Step =
    | Begin
    | Update(op: nat, no: nat, data: Data)
    | End(op: nat, order: seq<nat>, order': seq<nat>)
    | Escape(op: nat)
    | DeviceWrite
    | Unpin
    | Finish
    | Crash
    | Reboot

  /** The disk comes from mkfs or from a completed recovery: its log is empty. */
  ghost predicate Init(sb: SuperBlock, s: State) {
    && Layout(sb, s.disk) && HeaderOf(sb, s.disk).numBlocks == 0 && HeaderOk(s.header)
    && s.dirty == map[] && s.ops == [] && s.started == 0 && s.opCount == 0 && s.mode == Serving
    && s.logical == s.disk && s.durable == s.disk
  }

  ghost predicate Live(s: State, i: nat) { i < |s.ops| && s.ops[i].phase == Running && !s.mode.Recovering? }

  /** When the code can take the step; where it would panic instead, it cannot. */
  ghost predicate Enabled(sb: SuperBlock, s: State, step: Step) {
    match step
    case Begin =>
      && s.mode == Serving
      && s.opCount + OP_MAX_NUM_BLOCKS <= sb.numLogBlocks - 1
      && s.opCount + OP_MAX_NUM_BLOCKS <= LOG_MAX_SIZE
    case Update(i, no, data) => Live(s, i) && HomeBlock(sb, no) && no < |s.logical| && (no in s.dirty || s.ops[i].rm > 0)
    case End(i, order, order') => Live(s, i) && Lists(order, s.dirty.Keys) && Lists(order', s.dirty.Keys)
    case Escape(i) => i < |s.ops| && s.ops[i].phase == Ended
    case DeviceWrite =>
      match s.mode {
        case Serving => false
        case Committing(c, base, k, unpinned) => CanWrite(sb, s, c, k) && (k + 1 == CommitLength(c) ==> unpinned)
        case Recovering(found, k) => CanRestore(sb, s, found, k)
      }
    case Unpin => s.mode.Committing? && s.mode.k + 1 == CommitLength(s.mode.c) && !s.mode.unpinned
    case Finish => s.mode.Committing? && s.mode.k == CommitLength(s.mode.c) && |s.mode.c.order| <= |s.mode.c.stale.blockNo|
    case Crash => Layout(sb, s.disk) && LogOk(sb, s.disk)
    case Reboot =>
      && s.mode.Recovering? && Layout(sb, s.mode.found) && LogOk(sb, s.mode.found)
      && s.mode.k == RestoreLength(sb, s.mode.found, false)
  }

  ghost predicate CanWrite(sb: SuperBlock, s: State, c: Commit, k: nat) {
    && CommitOk(sb, c) && sb.numBlocks < WORD_LIMIT && k < CommitLength(c) && CommitWrite(sb, c, k).no < |s.disk|
  }

  ghost predicate CanRestore(sb: SuperBlock, s: State, found: Disk, k: nat) {
    && Layout(sb, found) && LogOk(sb, found) && k < RestoreLength(sb, found, false) && RestoreWrite(sb, found, k).no < |s.disk|
  }

  ghost function Next(sb: SuperBlock, s: State, step: Step): State
    requires Enabled(sb, s, step)
  {
    match step
    case Begin =>
      s.(ops := s.ops + [Op(OP_MAX_NUM_BLOCKS, 0, {}, Running)],
         started := s.started + 1,
         opCount := s.opCount + OP_MAX_NUM_BLOCKS)
    case Update(i, no, data) =>
      var op := s.ops[i];
      var charged := if no in s.dirty then op else op.(rm := op.rm - 1, done := op.done + 1);
      s.(dirty := s.dirty[no := data],
         ops := s.ops[i := charged.(synced := op.synced + {no})],
         logical := s.logical[no := data])
    case End(i, order, order') =>
      var op := s.ops[i];
      var ended := s.(started := s.started - 1, opCount := s.opCount - op.rm);
      if s.started - 1 == 0 then
        ended.(ops := s.ops[i := op.(phase := Committer)],
               mode := Committing(Commit(s.dirty, order, order', s.header), s.durable, 0, false))
      else ended.(ops := s.ops[i := op.(phase := Ended)])
    case Escape(i) => s.(ops := s.ops[i := s.ops[i].(phase := Escaped)])
    case DeviceWrite =>
      match s.mode {
        case Serving => s
        case Committing(c, base, k, unpinned) =>
          s.(disk := Put(s.disk, CommitWrite(sb, c, k)),
             mode := Committing(c, base, k + 1, unpinned),
             durable := if k == |c.order| then s.logical else s.durable)
        case Recovering(found, k) =>
          s.(disk := Put(s.disk, RestoreWrite(sb, found, k)), mode := Recovering(found, k + 1))
      }
    case Unpin => s.(dirty := map[], mode := s.mode.(unpinned := true))
    case Finish =>
      s.(mode := Serving, opCount := 0, ops := [], header := FullHeader(s.mode.c).(numBlocks := 0))
    case Crash =>
      s.(dirty := map[], ops := [], started := 0, opCount := 0,
         mode := Recovering(s.disk, 0), logical := s.durable)
    case Reboot => s.(mode := Serving, header := HeaderOf(sb, s.mode.found).(numBlocks := 0))
  }

  // ---- Sums over operations ----

  ghost function Total(ops: seq<Op>, f: Op -> nat): nat {
    if ops == [] then 0 else Total(ops[..|ops| - 1], f) + f(ops[|ops| - 1])
  }

  lemma TotalAppend(ops: seq<Op>, op: Op, f: Op -> nat)
    ensures Total(ops + [op], f) == Total(ops, f) + f(op)
  {
    assert (ops + [op])[..|ops|] == ops;
  }

  lemma {:induction false} TotalUpdate(ops: seq<Op>, i: nat, op: Op, f: Op -> nat)
    requires i < |ops|
    ensures Total(ops[i := op], f) == Total(ops, f) - f(ops[i]) + f(op)
    ensures f(ops[i]) <= Total(ops, f)
  {
    var n := |ops| - 1;
    if i == n {
      assert ops[i := op][..n] == ops[..n];
    } else {
      TotalUpdate(ops[..n], i, op, f);
      assert ops[i := op][..n] == ops[..n][i := op];
    }
  }

  lemma {:induction false} TotalBelow(ops: seq<Op>, f: Op -> nat, g: Op -> nat)
    requires forall i | 0 <= i < |ops| :: f(ops[i]) <= g(ops[i])
    ensures Total(ops, f) <= Total(ops, g)
  {
    if ops == [] {
    } else {
      TotalBelow(ops[..|ops| - 1], f, g);
    }
  }

  ghost function Done(op: Op): nat { op.done }
  ghost function Charge(op: Op): nat { if op.phase == Running then OP_MAX_NUM_BLOCKS else op.done }
  ghost function Runs(op: Op): nat { if op.phase == Running then 1 else 0 }

  // ---- The invariant ----

  /** What the counters mean. */
  ghost predicate Accounted(sb: SuperBlock, s: State) {
    && (forall i | 0 <= i < |s.ops| :: s.ops[i].rm + s.ops[i].done == OP_MAX_NUM_BLOCKS)
    && s.started == Total(s.ops, Runs)
    && s.opCount == Total(s.ops, Charge)
    && s.opCount <= sb.numLogBlocks - 1 && s.opCount <= LOG_MAX_SIZE
    && (s.mode.Committing? ==> s.started == 0)
    && (s.mode.Recovering? ==> s.ops == [])
    && ((s.mode.Committing? && s.mode.unpinned) || |s.dirty| == Total(s.ops, Done))
  }

  /** What is on disk. */
  ghost predicate Stored(sb: SuperBlock, s: State) {
    && Layout(sb, s.disk) && Layout(sb, s.logical) && Layout(sb, s.durable) && HeaderOk(s.header)
    && (forall b <- s.dirty.Keys :: HomeBlock(sb, b))
    && match s.mode
       case Serving =>
         && HeaderOf(sb, s.disk).numBlocks == 0
         && SameHome(sb, s.disk, s.durable)
         && SameHome(sb, s.logical, Overlay(s.durable, s.dirty))
       case Committing(c, base, k, unpinned) =>
         && CommitOk(sb, c) && Layout(sb, base) && WriteAheadLog.Committing(sb, c, base, s.disk, k)
         && SameHome(sb, s.logical, Overlay(base, c.dirty))
         && Stage(c, base, k, unpinned, s.logical, s.durable, s.dirty)
       case Recovering(found, k) =>
         && Layout(sb, found) && LogOk(sb, found) && Restoring(sb, found, s.disk, k)
         && k <= RestoreLength(sb, found, false)
         && SameHome(sb, Recovered(sb, found), s.durable)
         && s.logical == s.durable && s.dirty == map[]
  }

  /** The bookkeeping of a commit after `k` device writes. */
  ghost predicate Stage(c: Commit, base: Disk, k: nat, unpinned: bool, logical: Disk, durable: Disk, dirty: map<nat, Data>) {
    && durable == (if k <= |c.order| then base else logical)
    && dirty == (if unpinned then map[] else c.dirty)
    && (unpinned ==> k + 1 >= CommitLength(c))
    && (k == CommitLength(c) ==> unpinned)
  }

  /** The blocks on their way to disk: those pinned, or those of the commit under way. */
  ghost function Due(s: State): set<nat> {
    match s.mode
    case Serving => s.dirty.Keys
    case Committing(c, _, _, _) => c.dirty.Keys
    case Recovering(_, _) => {}
  }

  /** No operation has synced a block that is not on its way to disk. */
  ghost predicate Tracked(s: State) { forall i | 0 <= i < |s.ops| :: s.ops[i].synced <= Due(s) }

  ghost predicate Inv(sb: SuperBlock, s: State) { Accounted(sb, s) && Stored(sb, s) && Tracked(s) }

  lemma InitInv(sb: SuperBlock, s: State)
    requires Init(sb, s)
    ensures Inv(sb, s)
  {
  }

  lemma BeginInv(sb: SuperBlock, s: State)
    requires Inv(sb, s) && Enabled(sb, s, Begin)
    ensures Inv(sb, Next(sb, s, Begin))
  {
    var op := Op(OP_MAX_NUM_BLOCKS, 0, {}, Running);
    TotalAppend(s.ops, op, Runs);
    TotalAppend(s.ops, op, Charge);
    TotalAppend(s.ops, op, Done);
  }

  /** A running operation keeps the cache from committing. */
  lemma LiveServes(sb: SuperBlock, s: State, i: nat)
    requires Accounted(sb, s) && Live(s, i)
    ensures s.mode == Serving && 1 <= s.started
  {
    TotalUpdate(s.ops, i, s.ops[i], Runs);
  }

  lemma UpdateInv(sb: SuperBlock, s: State, i: nat, no: nat, data: Data)
    requires Inv(sb, s) && Enabled(sb, s, Update(i, no, data))
    ensures Inv(sb, Next(sb, s, Update(i, no, data)))
  {
    LiveServes(sb, s, i);
    UpdateAccounted(sb, s, i, no, data);
    UpdateStored(sb, s, i, no, data, Next(sb, s, Update(i, no, data)));
  }

  lemma UpdateStored(sb: SuperBlock, s: State, i: nat, no: nat, data: Data, s': State)
    requires Stored(sb, s) && Tracked(s) && s.mode == Serving && Enabled(sb, s, Update(i, no, data))
    requires s' == Next(sb, s, Update(i, no, data))
    ensures Stored(sb, s') && Tracked(s')
  {
    assert s'.dirty.Keys == s.dirty.Keys + {no};
  }

  lemma UpdateAccounted(sb: SuperBlock, s: State, i: nat, no: nat, data: Data)
    requires Accounted(sb, s) && Enabled(sb, s, Update(i, no, data)) && s.mode == Serving
    ensures Accounted(sb, Next(sb, s, Update(i, no, data)))
  {
    var s' := Next(sb, s, Update(i, no, data));
    var op' := s'.ops[i];
    TotalUpdate(s.ops, i, op', Runs);
    TotalUpdate(s.ops, i, op', Charge);
    TotalUpdate(s.ops, i, op', Done);
    assert s'.dirty.Keys == s.dirty.Keys + {no};
  }

  /** The reservation leaves room for every pinned block. */
  lemma PinnedBound(sb: SuperBlock, s: State)
    requires Accounted(sb, s) && !(s.mode.Committing? && s.mode.unpinned)
    ensures |s.dirty| == Total(s.ops, Done) <= s.opCount
    ensures s.opCount <= sb.numLogBlocks - 1 && s.opCount <= LOG_MAX_SIZE
  {
    TotalBelow(s.ops, Done, Charge);
  }

  lemma EndInv(sb: SuperBlock, s: State, i: nat, order: seq<nat>, order': seq<nat>)
    requires Inv(sb, s) && Enabled(sb, s, End(i, order, order'))
    ensures Inv(sb, Next(sb, s, End(i, order, order')))
  {
    LiveServes(sb, s, i);
    var s' := Next(sb, s, End(i, order, order'));
    EndAccounted(sb, s, i, order, order');
    if s.started - 1 == 0 {
      PinnedBound(sb, s);
      ListLength(order, s.dirty.Keys);
      var c := Commit(s.dirty, order, order', s.header);
      assert order'[..0] == [];
      assert WriteAheadLog.Committing(sb, c, s.durable, s.disk, 0);
    }
  }

  lemma EndAccounted(sb: SuperBlock, s: State, i: nat, order: seq<nat>, order': seq<nat>)
    requires Accounted(sb, s) && Enabled(sb, s, End(i, order, order')) && s.mode == Serving
    ensures Accounted(sb, Next(sb, s, End(i, order, order')))
  {
    var op' := Next(sb, s, End(i, order, order')).ops[i];
    TotalUpdate(s.ops, i, op', Runs);
    TotalUpdate(s.ops, i, op', Charge);
    TotalUpdate(s.ops, i, op', Done);
  }

  lemma EscapeInv(sb: SuperBlock, s: State, i: nat)
    requires Inv(sb, s) && Enabled(sb, s, Escape(i))
    ensures Inv(sb, Next(sb, s, Escape(i)))
  {
    EscapeAccounted(sb, s, i, Next(sb, s, Escape(i)));
    EscapeStored(sb, s, i, Next(sb, s, Escape(i)));
  }

  lemma EscapeAccounted(sb: SuperBlock, s: State, i: nat, s': State)
    requires Accounted(sb, s) && i < |s.ops| && s.ops[i].phase == Ended && s' == s.(ops := s.ops[i := s.ops[i].(phase := Escaped)])
    ensures Accounted(sb, s')
  {
    var op' := s.ops[i].(phase := Escaped);
    TotalUpdate(s.ops, i, op', Runs);
    TotalUpdate(s.ops, i, op', Charge);
    TotalUpdate(s.ops, i, op', Done);
  }

  lemma EscapeStored(sb: SuperBlock, s: State, i: nat, s': State)
    requires Stored(sb, s) && Tracked(s) && i < |s.ops| && s' == s.(ops := s.ops[i := s.ops[i].(phase := Escaped)])
    ensures Stored(sb, s') && Tracked(s')
  {
  }

  lemma RestoreWriteInv(sb: SuperBlock, s: State, s': State, found: Disk, k: nat)
    requires Inv(sb, s) && s.mode == Recovering(found, k) && CanRestore(sb, s, found, k)
    requires s' == s.(disk := Put(s.disk, RestoreWrite(sb, found, k)), mode := Recovering(found, k + 1))
    ensures Inv(sb, s')
  {
    RestoreStep(sb, found, s.disk, k);
  }

  lemma CommitWriteInv(sb: SuperBlock, s: State, s': State, c: Commit, base: Disk, k: nat, unpinned: bool)
    requires Inv(sb, s) && s.mode == Committing(c, base, k, unpinned)
    requires CanWrite(sb, s, c, k) && (k + 1 == CommitLength(c) ==> unpinned)
    requires s' == s.(disk := Put(s.disk, CommitWrite(sb, c, k)),
                      mode := Committing(c, base, k + 1, unpinned),
                      durable := if k == |c.order| then s.logical else s.durable)
    ensures Inv(sb, s')
  {
    CommitStep(sb, c, base, s.disk, k);
    assert Stage(c, base, k + 1, unpinned, s'.logical, s'.durable, s'.dirty);
  }

  lemma FinishInv(sb: SuperBlock, s: State)
    requires Inv(sb, s) && Enabled(sb, s, Finish)
    ensures Inv(sb, Next(sb, s, Finish))
  {
    var Committing(c, base, k, _) := s.mode;
    CommitRecovered(sb, c, base, s.disk, k);
    FullHeaderOk(sb, c);
  }

  lemma CrashInv(sb: SuperBlock, s: State)
    requires Inv(sb, s) && Enabled(sb, s, Crash)
    ensures Inv(sb, Next(sb, s, Crash))
  {
    Worth(sb, s);
    RestoreStart(sb, s.disk);
  }

  /** A recovery that has come to its end. */
  lemma RestoredDisk(sb: SuperBlock, s: State, found: Disk, k: nat)
    requires Stored(sb, s) && s.mode == Recovering(found, k) && k == RestoreLength(sb, found, false)
    ensures SameHome(sb, s.disk, s.durable) && HeaderOf(sb, s.disk).numBlocks == 0 && HeaderOk(HeaderOf(sb, found))
  {
    RestoreRecovered(sb, found, s.disk, k);
    if k == 0 {
      NothingPending(sb, s.disk);
    }
  }

  lemma RebootInv(sb: SuperBlock, s: State)
    requires Inv(sb, s) && Enabled(sb, s, Reboot)
    ensures Inv(sb, Next(sb, s, Reboot))
  {
    RestoredDisk(sb, s, s.mode.found, s.mode.k);
  }

  /** In every state the disk is worth exactly the latest committed contents. */
  lemma Worth(sb: SuperBlock, s: State)
    requires Stored(sb, s)
    ensures LogOk(sb, s.disk) && SameHome(sb, Recovered(sb, s.disk), s.durable)
  {
    match s.mode
    case Serving =>
    case Committing(c, base, k, unpinned) => CommitRecovered(sb, c, base, s.disk, k);
    case Recovering(found, k) => RestoreRecovered(sb, found, s.disk, k);
  }

  lemma StepInv(sb: SuperBlock, s: State, step: Step)
    requires Inv(sb, s) && Enabled(sb, s, step)
    ensures Inv(sb, Next(sb, s, step))
  {
    match step
    case Begin => BeginInv(sb, s);
    case Update(i, no, data) => UpdateInv(sb, s, i, no, data);
    case End(i, order, order') => EndInv(sb, s, i, order, order');
    case Escape(i) => EscapeInv(sb, s, i);
    case DeviceWrite =>
      if s.mode.Committing? {
        CommitWriteInv(sb, s, Next(sb, s, step), s.mode.c, s.mode.base, s.mode.k, s.mode.unpinned);
      } else {
        RestoreWriteInv(sb, s, Next(sb, s, step), s.mode.found, s.mode.k);
      }
    case Unpin =>
    case Finish => FinishInv(sb, s);
    case Crash => CrashInv(sb, s);
    case Reboot => RebootInv(sb, s);
  }

  // ---- Whole runs ----

  ghost predicate IsRun(sb: SuperBlock, run: seq<State>, steps: seq<Step>) {
    && |run| == |steps| + 1 && Init(sb, run[0])
    && forall i | 0 <= i < |steps| :: StepAt(sb, run, steps, i)
  }

  ghost predicate StepAt(sb: SuperBlock, run: seq<State>, steps: seq<Step>, i: nat)
    requires |run| == |steps| + 1 && i < |steps|
  {
    Enabled(sb, run[i], steps[i]) && run[i + 1] == Next(sb, run[i], steps[i])
  }

  lemma {:induction false} RunInv(sb: SuperBlock, run: seq<State>, steps: seq<Step>, i: nat)
    requires IsRun(sb, run, steps) && i < |run|
    ensures Inv(sb, run[i])
  {
    if i == 0 {
      InitInv(sb, run[0]);
    } else {
      RunInv(sb, run, steps, i - 1);
      assert StepAt(sb, run, steps, i - 1);
      StepInv(sb, run[i - 1], steps[i - 1]);
    }
  }

  /** Reservation: as long as blocks are pinned, there are as many as the operations since
      the last checkpoint have charged, and they fit in the log and in its header. An
      operation counts with its whole reservation as long as it runs, and then with what it
      has charged. */
  lemma Reservation(sb: SuperBlock, run: seq<State>, steps: seq<Step>, i: nat)
    requires IsRun(sb, run, steps) && i < |run| && !(run[i].mode.Committing? && run[i].mode.unpinned)
    ensures |run[i].dirty| == Total(run[i].ops, Done) <= run[i].opCount
    ensures run[i].opCount == Total(run[i].ops, Charge) && run[i].started == Total(run[i].ops, Runs)
    ensures run[i].opCount <= sb.numLogBlocks - 1 && run[i].opCount <= LOG_MAX_SIZE
  {
    RunInv(sb, run, steps, i);
    PinnedBound(sb, run[i]);
  }

  /** No panic: end_op is never called during a commit, an operation's two counters
      always make up its reservation, and write_data finds what write_log found. */
  lemma NoPanic(sb: SuperBlock, run: seq<State>, steps: seq<Step>, i: nat)
    requires IsRun(sb, run, steps) && i < |run|
    ensures forall op | Live(run[i], op) :: !run[i].mode.Committing?
    ensures forall op | 0 <= op < |run[i].ops| :: run[i].ops[op].rm + run[i].ops[op].done == OP_MAX_NUM_BLOCKS
    ensures run[i].mode.Committing? && !run[i].mode.unpinned ==>
      |run[i].mode.c.order| == |run[i].mode.c.order'| == |run[i].dirty| <= sb.numLogBlocks - 1
  {
    RunInv(sb, run, steps, i);
    forall op | Live(run[i], op)
      ensures !run[i].mode.Committing?
    {
      LiveServes(sb, run[i], op);
    }
    if run[i].mode.Committing? && !run[i].mode.unpinned {
      var c := run[i].mode.c;
      ListLength(c.order, c.dirty.Keys);
      ListLength(c.order', c.dirty.Keys);
    }
  }

  /** Group commit: when end_op is released, every home block is on disk as its users
      last saw it, and no log is pending. */
  lemma EndOpDurable(sb: SuperBlock, run: seq<State>, steps: seq<Step>, i: nat)
    requires IsRun(sb, run, steps) && i < |steps| && steps[i] == Finish
    ensures Layout(sb, run[i].disk) && HeaderOf(sb, run[i].disk).numBlocks == 0
    ensures SameHome(sb, run[i].disk, run[i].logical)
  {
    RunInv(sb, run, steps, i);
    assert StepAt(sb, run, steps, i);
    var Committing(c, base, k, _) := run[i].mode;
    CommitRecovered(sb, c, base, run[i].disk, k);
  }

  /** No operation is in progress. */
  ghost predicate Quiescent(s: State) { forall i | 0 <= i < |s.ops| :: s.ops[i].phase != Running }

  /** Step `j` is the header write of a commit. */
  ghost predicate CommitPoint(run: seq<State>, steps: seq<Step>, j: nat)
    requires j < |steps| && j < |run|
  {
    steps[j] == DeviceWrite && run[j].mode.Committing? && run[j].mode.k == |run[j].mode.c.order|
  }

  lemma CommitIsQuiescent(sb: SuperBlock, s: State)
    requires Accounted(sb, s) && (s.mode.Committing? || s.ops == [])
    ensures Quiescent(s)
  {
    forall i | 0 <= i < |s.ops|
      ensures s.ops[i].phase != Running
    {
      TotalUpdate(s.ops, i, s.ops[i], Runs);
    }
  }

  /** Whatever happens after the checkpoint `r` (or the start), crashes and interrupted
      recoveries included, the disk is worth the contents that its users saw at the latest
      commit point since `r`, or at `r`: a moment when no operation was in progress. */
  lemma CrashConsistency(sb: SuperBlock, run: seq<State>, steps: seq<Step>, r: nat, i: nat) returns (j: nat)
    requires IsRun(sb, run, steps) && r <= i < |run|
    requires r == 0 || (r < |steps| && steps[r] == Finish)
    ensures r <= j <= i && (j == r || (j < i && CommitPoint(run, steps, j)))
    ensures Quiescent(run[j]) && forall m | j < m < i :: !CommitPoint(run, steps, m)
    ensures Layout(sb, run[i].disk) && LogOk(sb, run[i].disk)
    ensures SameHome(sb, Recovered(sb, run[i].disk), run[j].logical)
  {
    j := LastCommit(sb, run, steps, r, i);
    RunInv(sb, run, steps, i);
    Worth(sb, run[i]);
  }

  lemma {:induction false} LastCommit(sb: SuperBlock, run: seq<State>, steps: seq<Step>, r: nat, i: nat) returns (j: nat)
    requires IsRun(sb, run, steps) && r <= i < |run|
    requires r == 0 || (r < |steps| && steps[r] == Finish)
    ensures r <= j <= i && (j == r || (j < i && CommitPoint(run, steps, j)))
    ensures Quiescent(run[j]) && run[i].durable == run[j].logical
    ensures forall m | j < m < i :: !CommitPoint(run, steps, m)
  {
    if i == r {
      CheckpointIsDurable(sb, run, steps, r);
      j := r;
    } else if CommitPoint(run, steps, i - 1) {
      PointIsDurable(sb, run, steps, i - 1);
      j := i - 1;
    } else {
      assert StepAt(sb, run, steps, i - 1);
      DurableStep(sb, run[i - 1], steps[i - 1]);
      j := LastCommit(sb, run, steps, r, i - 1);
    }
  }

  lemma PointIsDurable(sb: SuperBlock, run: seq<State>, steps: seq<Step>, j: nat)
    requires IsRun(sb, run, steps) && j < |steps| && CommitPoint(run, steps, j)
    ensures Quiescent(run[j]) && run[j + 1].durable == run[j].logical
  {
    RunInv(sb, run, steps, j);
    CommitIsQuiescent(sb, run[j]);
    assert StepAt(sb, run, steps, j);
    DurableStep(sb, run[j], steps[j]);
  }

  lemma CheckpointIsDurable(sb: SuperBlock, run: seq<State>, steps: seq<Step>, r: nat)
    requires IsRun(sb, run, steps) && r < |run|
    requires r == 0 || (r < |steps| && steps[r] == Finish)
    ensures Quiescent(run[r]) && run[r].durable == run[r].logical
  {
    RunInv(sb, run, steps, r);
    assert r == 0 || StepAt(sb, run, steps, r);
    CommitIsQuiescent(sb, run[r]);
  }

  /** The committed contents change at commit points only. */
  lemma DurableStep(sb: SuperBlock, s: State, step: Step)
    requires Enabled(sb, s, step)
    ensures Next(sb, s, step).durable ==
      if step == DeviceWrite && s.mode.Committing? && s.mode.k == |s.mode.c.order| then s.logical else s.durable
  {
  }

  /** After a completed recovery the home blocks are those contents. */
  lemma RecoveryRestores(sb: SuperBlock, run: seq<State>, steps: seq<Step>, i: nat)
    requires IsRun(sb, run, steps) && i < |steps| && steps[i] == Reboot
    ensures SameHome(sb, run[i + 1].disk, run[i].durable)
    ensures run[i + 1].logical == run[i].durable && run[i + 1].mode == Serving
  {
    RunInv(sb, run, steps, i);
    RunInv(sb, run, steps, i + 1);
    assert StepAt(sb, run, steps, i);
  }

  // ---- What is written ----

  /** What a step does to the contents that users see: an update stores its data, a crash
      takes back what was not committed, and nothing else changes any. */
  lemma LogicalStep(sb: SuperBlock, s: State, step: Step, b: nat)
    requires Inv(sb, s) && Enabled(sb, s, step) && b < sb.numBlocks
    ensures |s.logical| == |Next(sb, s, step).logical| == |s.durable| == sb.numBlocks
    ensures Next(sb, s, step).logical[b] ==
      if step.Update? && step.no == b then step.data
      else if step.Crash? then s.durable[b]
      else s.logical[b]
  {
  }

  /** Between steps `e` and `l` nobody updates block `b` and the machine does not crash. */
  ghost predicate Untouched(steps: seq<Step>, b: nat, e: nat, l: nat)
    requires l <= |steps|
  {
    forall m | e <= m < l :: !steps[m].Crash? && !(steps[m].Update? && steps[m].no == b)
  }

  lemma ContentsStep(sb: SuperBlock, run: seq<State>, steps: seq<Step>, b: nat, m: nat)
    requires IsRun(sb, run, steps) && m < |steps| && b < sb.numBlocks && !steps[m].Crash? && !(steps[m].Update? && steps[m].no == b)
    ensures b < |run[m].logical| == |run[m + 1].logical| && run[m + 1].logical[b] == run[m].logical[b]
  {
    RunInv(sb, run, steps, m);
    assert StepAt(sb, run, steps, m);
    LogicalStep(sb, run[m], steps[m], b);
  }

  /** A block that no update names keeps its contents until a crash. */
  lemma {:induction false} KeepsContents(sb: SuperBlock, run: seq<State>, steps: seq<Step>, b: nat, e: nat, l: nat)
    requires IsRun(sb, run, steps) && e <= l < |run| && b < sb.numBlocks && Untouched(steps, b, e, l)
    ensures b < |run[e].logical| && b < |run[l].logical| && run[l].logical[b] == run[e].logical[b]
    decreases l
  {
    if e == l {
      RunInv(sb, run, steps, l);
    } else {
      KeepsContents(sb, run, steps, b, e, l - 1);
      ContentsStep(sb, run, steps, b, l - 1);
    }
  }

  /** What an operation has written is seen until somebody writes there again. */
  lemma UpdateSeen(sb: SuperBlock, run: seq<State>, steps: seq<Step>, op: nat, b: nat, d: Data, e: nat, l: nat)
    requires IsRun(sb, run, steps) && e < l < |run| && steps[e] == Update(op, b, d) && Untouched(steps, b, e + 1, l)
    ensures HomeBlock(sb, b) && b < |run[l].logical| && run[l].logical[b] == d
  {
    RunInv(sb, run, steps, e);
    assert StepAt(sb, run, steps, e);
    LogicalStep(sb, run[e], steps[e], b);
    KeepsContents(sb, run, steps, b, e + 1, l);
  }

  /** Durability: when end_op is released, what was last written to a block is on disk. */
  lemma UpdateDurable(sb: SuperBlock, run: seq<State>, steps: seq<Step>, op: nat, b: nat, d: Data, e: nat, l: nat)
    requires IsRun(sb, run, steps) && e < l < |steps| && steps[e] == Update(op, b, d) && Untouched(steps, b, e + 1, l)
    requires steps[l] == Finish
    ensures b < |run[l].disk| && run[l].disk[b] == d
  {
    UpdateSeen(sb, run, steps, op, b, d, e, l);
    EndOpDurable(sb, run, steps, l);
  }

  /** Durability across crashes: from the commit point after a write on, and until another
      one, the disk is worth what was written, whatever happens. */
  lemma UpdateSurvives(sb: SuperBlock, run: seq<State>, steps: seq<Step>, op: nat, b: nat, d: Data, e: nat, j: nat, i: nat)
    requires IsRun(sb, run, steps) && e < j < i < |run| && steps[e] == Update(op, b, d) && Untouched(steps, b, e + 1, j)
    requires CommitPoint(run, steps, j) && forall m | j < m < i :: !CommitPoint(run, steps, m)
    ensures Layout(sb, run[i].disk) && LogOk(sb, run[i].disk)
    ensures b < sb.numBlocks && Recovered(sb, run[i].disk)[b] == d
  {
    UpdateSeen(sb, run, steps, op, b, d, e, j);
    var l := CrashConsistency(sb, run, steps, 0, i);
    assert l == j;
  }

  /** A commit begins exactly when the last running operation ends, and takes all that is
      pinned. */
  lemma CommitBegins(sb: SuperBlock, run: seq<State>, steps: seq<Step>, i: nat)
    requires IsRun(sb, run, steps) && i < |steps| && steps[i].End?
    ensures run[i].mode == Serving && steps[i].op < |run[i].ops|
    ensures var s, t := run[i], run[i + 1];
      if forall m | 0 <= m < |s.ops| && m != steps[i].op :: s.ops[m].phase != Running
      then t.mode.Committing? && t.mode.k == 0 && t.mode.c.dirty == s.dirty
      else t.mode == Serving
  {
    RunInv(sb, run, steps, i);
    assert StepAt(sb, run, steps, i);
    LiveServes(sb, run[i], steps[i].op);
    OnlyRunner(run[i].ops, steps[i].op);
  }

  lemma {:induction false} NoneRun(ops: seq<Op>)
    ensures Total(ops, Runs) == 0 <==> forall m | 0 <= m < |ops| :: ops[m].phase != Running
  {
    if ops == [] {
    } else {
      var n := |ops| - 1;
      NoneRun(ops[..n]);
      assert forall m | 0 <= m < n :: ops[..n][m] == ops[m];
    }
  }

  lemma OnlyRunner(ops: seq<Op>, i: nat)
    requires i < |ops| && ops[i].phase == Running
    ensures Total(ops, Runs) == 1 <==> forall m | 0 <= m < |ops| && m != i :: ops[m].phase != Running
  {
    var rest := ops[i := ops[i].(phase := Ended)];
    TotalUpdate(ops, i, ops[i].(phase := Ended), Runs);
    NoneRun(rest);
    assert forall m | 0 <= m < |ops| && m != i :: rest[m] == ops[m];
  }

  // ---- What an operation has synced ----

  /** Step `m` is an update of `b` by the operation `op` that is at number `op` in state `i`. */
  ghost predicate UpdatedAt(steps: seq<Step>, op: nat, b: nat, m: nat, i: nat)
    requires i <= |steps|
  {
    && m < i && steps[m].Update? && steps[m].op == op && steps[m].no == b
    && forall l | m < l < i :: !steps[l].Finish? && !steps[l].Crash?
  }

  ghost predicate HasUpdated(steps: seq<Step>, op: nat, b: nat, i: nat)
    requires i <= |steps|
  {
    exists m: nat :: UpdatedAt(steps, op, b, m, i)
  }

  /** An operation's set of synced blocks is what it has updated. */
  lemma {:induction false} SyncedMeans(sb: SuperBlock, run: seq<State>, steps: seq<Step>, i: nat, op: nat, b: nat)
    requires IsRun(sb, run, steps) && i < |run|
    ensures op < |run[i].ops| && b in run[i].ops[op].synced <==> HasUpdated(steps, op, b, i)
  {
    if i == 0 {
    } else {
      var k := i - 1;
      SyncedMeans(sb, run, steps, k, op, b);
      RunInv(sb, run, steps, k);
      assert StepAt(sb, run, steps, k);
      SyncedStep(sb, run[k], steps[k], run[i], op, b);
      UpdatedNext(steps, k, op, b);
    }
  }

  lemma SyncedStep(sb: SuperBlock, s: State, step: Step, t: State, op: nat, b: nat)
    requires Enabled(sb, s, step) && t == Next(sb, s, step) && (s.mode.Recovering? ==> s.ops == [])
    ensures op < |t.ops| && b in t.ops[op].synced <==>
      || (step.Update? && step.op == op && step.no == b)
      || (!step.Finish? && !step.Crash? && op < |s.ops| && b in s.ops[op].synced)
  {
  }

  lemma UpdatedNext(steps: seq<Step>, k: nat, op: nat, b: nat)
    requires k < |steps|
    ensures HasUpdated(steps, op, b, k + 1) <==>
      || (steps[k].Update? && steps[k].op == op && steps[k].no == b)
      || (!steps[k].Finish? && !steps[k].Crash? && HasUpdated(steps, op, b, k))
  {
    var i := k + 1;
    if HasUpdated(steps, op, b, i) {
      var m: nat :| UpdatedAt(steps, op, b, m, i);
      if m < k {
        assert UpdatedAt(steps, op, b, m, k);
      }
    }
    if steps[k].Update? && steps[k].op == op && steps[k].no == b {
      assert UpdatedAt(steps, op, b, k, i);
    }
    if HasUpdated(steps, op, b, k) && !steps[k].Finish? && !steps[k].Crash? {
      var m: nat :| UpdatedAt(steps, op, b, m, k);
      assert UpdatedAt(steps, op, b, m, i);
    }
  }

  // ---- A killed operation ----

  /** A checkpoint is complete just before step `j`: home blocks are as their users see them. */
  ghost predicate Checkpoint(steps: seq<Step>, j: nat)
    requires j <= |steps|
  {
    j == 0 || steps[j - 1] == Finish || steps[j - 1] == Reboot
  }

  /** The home blocks at the latest checkpoint. */
  ghost function Base(s: State): Disk { if s.mode.Committing? then s.mode.base else s.durable }

  lemma CheckpointBase(sb: SuperBlock, run: seq<State>, steps: seq<Step>, j: nat)
    requires IsRun(sb, run, steps) && j < |run| && Checkpoint(steps, j)
    ensures run[j].mode == Serving && run[j].durable == run[j].logical
  {
    if j > 0 {
      assert StepAt(sb, run, steps, j - 1);
      RunInv(sb, run, steps, j - 1);
    }
  }

  /** Until the next checkpoint or crash the base stays. */
  lemma BaseStep(sb: SuperBlock, s: State, step: Step)
    requires Enabled(sb, s, step) && Inv(sb, s) && !step.Finish? && !step.Crash? && !step.Reboot?
    ensures Next(sb, s, step).mode.Recovering? == s.mode.Recovering?
    ensures !s.mode.Recovering? ==> Base(Next(sb, s, step)) == Base(s)
  {
    if step.End? {
      LiveServes(sb, s, step.op);
    }
  }

  lemma {:induction false} LastCheckpoint(sb: SuperBlock, run: seq<State>, steps: seq<Step>, i: nat) returns (j: nat)
    requires IsRun(sb, run, steps) && i < |run| && !run[i].mode.Recovering?
    ensures j <= i && Checkpoint(steps, j) && Base(run[i]) == run[j].logical
    ensures forall m | j <= m < i :: !steps[m].Finish? && !steps[m].Crash? && !steps[m].Reboot?
  {
    if Checkpoint(steps, i) {
      CheckpointBase(sb, run, steps, i);
      j := i;
    } else {
      assert StepAt(sb, run, steps, i - 1);
      RunInv(sb, run, steps, i - 1);
      BaseStep(sb, run[i - 1], steps[i - 1]);
      j := LastCheckpoint(sb, run, steps, i - 1);
    }
  }

  /** write_data has sent block `b` home. */
  ghost predicate SentHome(s: State, b: nat) {
    s.mode.Committing? && b in s.mode.c.order'[..HomeCount(s.mode.c, s.mode.k)]
  }

  lemma AtHome(sb: SuperBlock, s: State, b: nat)
    requires Inv(sb, s) && b in Due(s)
    ensures HomeBlock(sb, b) && |s.disk| == |s.logical| == |Base(s)| == sb.numBlocks
    ensures s.disk[b] == s.logical[b] <==> SentHome(s, b) || s.logical[b] == Base(s)[b]
  {
    assert HomeBlock(sb, b);
  }

  /** An operation that is killed while it waits in end_op, a commit under way or not,
      returns with a block it synced on disk exactly when write_data has sent the block
      already, or the block holds what it held at the latest checkpoint `j`. */
  lemma EscapeExact(sb: SuperBlock, run: seq<State>, steps: seq<Step>, i: nat, op: nat, b: nat) returns (j: nat)
    requires IsRun(sb, run, steps) && i < |steps| && steps[i] == Escape(op)
    requires HasUpdated(steps, op, b, i)
    ensures j <= i && Checkpoint(steps, j)
    ensures forall m | j <= m < i :: !steps[m].Finish? && !steps[m].Crash? && !steps[m].Reboot?
    ensures HomeBlock(sb, b) && |run[i].disk| == |run[i].logical| == |run[j].logical| == sb.numBlocks
    ensures run[i].disk[b] == run[i].logical[b] <==> SentHome(run[i], b) || run[i].logical[b] == run[j].logical[b]
  {
    RunInv(sb, run, steps, i);
    assert StepAt(sb, run, steps, i);
    SyncedMeans(sb, run, steps, i, op, b);
    j := LastCheckpoint(sb, run, steps, i);
    AtHome(sb, run[i], b);
  }

  /** The steps by which an operation leaves end_op, or is lost in it. */
  ghost predicate Leaves(step: Step, op: nat) { step == Finish || step == Escape(op) || step == Crash }

  lemma {:induction false} StaysInEndOp(sb: SuperBlock, run: seq<State>, steps: seq<Step>, op: nat, e: nat, l: nat)
    requires IsRun(sb, run, steps) && e < l < |run| && steps[e].End? && steps[e].op == op
    requires forall m | e < m < l :: !Leaves(steps[m], op)
    ensures op < |run[e].ops| && op < |run[l].ops|
    ensures run[l].ops[op] == run[e].ops[op].(phase := Ended) || run[l].ops[op] == run[e].ops[op].(phase := Committer)
  {
    assert StepAt(sb, run, steps, l - 1);
    if l > e + 1 {
      StaysInEndOp(sb, run, steps, op, e, l - 1);
      RunInv(sb, run, steps, l - 1);
    }
  }

  /** An operation leaves end_op only when a commit is done or when it is killed. If it is
      not killed, every block that it synced is on disk as its users last saw it. */
  lemma EndOpReturns(sb: SuperBlock, run: seq<State>, steps: seq<Step>, op: nat, e: nat, l: nat)
    requires IsRun(sb, run, steps) && e < l < |run| && steps[e].End? && steps[e].op == op
    requires forall m | e < m < l :: !Leaves(steps[m], op)
    ensures op < |run[e].ops| && op < |run[l].ops| && (run[l].ops[op].phase == Ended || run[l].ops[op].phase == Committer)
    ensures l < |steps| && steps[l] == Finish ==> forall b: nat | HasUpdated(steps, op, b, e) ::
      HomeBlock(sb, b) && b < |run[l].disk| && b < |run[l].logical| && run[l].disk[b] == run[l].logical[b]
  {
    StaysInEndOp(sb, run, steps, op, e, l);
    if l < |steps| && steps[l] == Finish {
      EndOpDurable(sb, run, steps, l);
      RunInv(sb, run, steps, l);
      assert StepAt(sb, run, steps, l);
      forall b: nat | HasUpdated(steps, op, b, e)
        ensures HomeBlock(sb, b)
      {
        SyncedMeans(sb, run, steps, e, op, b);
        AtHome(sb, run[l], b);
      }
    }
  }

  /** That can happen on every disk with room for two operations: the one that waits is
      killed, end_op returns, and a block that it synced is not on disk. */
  lemma KilledRun(sb: SuperBlock, s0: State, b: nat, data: Data) returns (run: seq<State>, steps: seq<Step>)
    requires Init(sb, s0) && 2 * OP_MAX_NUM_BLOCKS <= sb.numLogBlocks - 1 && HomeBlock(sb, b) && data != s0.disk[b]
    ensures IsRun(sb, run, steps) && |steps| == 5 && run[0] == s0 && steps[4] == Escape(0)
    ensures var s := run[5]; |s.ops| == 2 && b in s.ops[0].synced && b < |s.disk| == |s.logical| && s.disk[b] != s.logical[b]
  {
    var s1 := Next(sb, s0, Begin);
    var s2 := Next(sb, s1, Begin);
    var s3 := Next(sb, s2, Update(0, b, data));
    assert Lists([b], s3.dirty.Keys);
    var s4 := Next(sb, s3, End(0, [b], [b]));
    var s5 := Next(sb, s4, Escape(0));
    run := [s0, s1, s2, s3, s4, s5];
    steps := [Begin, Begin, Update(0, b, data), End(0, [b], [b]), Escape(0)];
  }

  // ---- Progress ----

  /** A crash is possible in every state. */
  lemma CrashPossible(sb: SuperBlock, s: State)
    requires Inv(sb, s)
    ensures Enabled(sb, s, Crash)
  {
    Worth(sb, s);
  }

  /** A commit can always go on to its end. */
  lemma CommitProceeds(sb: SuperBlock, s: State)
    requires Inv(sb, s) && s.mode.Committing?
    ensures Enabled(sb, s, if s.mode.k == CommitLength(s.mode.c) then Finish
                           else if s.mode.k + 1 == CommitLength(s.mode.c) && !s.mode.unpinned then Unpin
                           else DeviceWrite)
  {
    var Committing(c, base, k, unpinned) := s.mode;
    if |c.order| < k <= |c.order| + |c.order'| {
      assert c.order'[k - |c.order| - 1] in c.dirty;
    }
  }

  /** A recovery can always go on to its end. */
  lemma RecoveryProceeds(sb: SuperBlock, s: State)
    requires Inv(sb, s) && s.mode.Recovering?
    ensures Layout(sb, s.mode.found) && LogOk(sb, s.mode.found)
    ensures Enabled(sb, s, if s.mode.k == RestoreLength(sb, s.mode.found, false) then Reboot else DeviceWrite)
  {
    var Recovering(found, k) := s.mode;
    if k < HeaderOf(sb, found).numBlocks {
      assert HomeBlock(sb, HeaderOf(sb, found).blockNo[k]);
    }
  }
}
