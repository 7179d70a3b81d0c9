/**
  The block store: a hash-linked chain of block documents with a checkpoint document that names its head.
  Adding a block is several steps, and the process may stop and reopen between any two of them.
 */
module BlockStore {
  import opened PvtTypes

  datatype Header = Header(number: uint64, prev: Bytes, dataHash: Bytes)

  datatype Block = Block(header: Header, config: bool, data: Bytes)

  type HashFn = Header -> Bytes

  datatype Checkpoint = Checkpoint(empty: bool, last: uint64, hash: Bytes)

  datatype Info = Info(height: uint64, current: Bytes, previous: Bytes)

  const NO_BLOCKS := Checkpoint(true, 0, [])
  const NO_INFO := Info(0, [], [])

  function CheckpointOf(hash: HashFn, b: Block): Checkpoint {
    Checkpoint(false, b.header.number, hash(b.header))
  }

  function InfoOf(hash: HashFn, b: Block): Info {
    Info(Increment(b.header.number), hash(b.header), b.header.prev)
  }

  // How far an AddBlock has come: the block is stored, its checkpoint saved, the blockchain info set
  datatype Phase = Idle | Stored(b: Block) | Saved(b: Block) | Informed(b: Block)

  // blocks and saved are on disk; the rest is the process's own
  datatype State = State(blocks: map<uint64, Block>, saved: Option<Checkpoint>, cp: Checkpoint, info: Info,
                         phase: Phase)

  /** An empty chain takes any first block; otherwise number and previous hash must continue the head. */
  predicate ValidNext(cp: Checkpoint, b: Block) {
    cp.empty || (b.header.number == Increment(cp.last) && b.header.prev == cp.hash)
  }

  function SavedCheckpoint(s: State): Checkpoint {
    if s.saved.None? then NO_BLOCKS else s.saved.value
  }

  // A failure after the block was stored ends the AddBlock without a checkpoint
  datatype Action = Store(b: Block) | Save | Fail | SetInfo | Publish | Restart

  // Reopening reads the head block back and stops the peer when it is missing
  predicate Reopens(s: State) {
    SavedCheckpoint(s).empty || SavedCheckpoint(s).last in s.blocks
  }

  predicate Enabled(s: State, a: Action) {
    match a
    case Store(b) => s.phase.Idle? && ValidNext(s.cp, b)
    case Save => s.phase.Stored?
    case Fail => s.phase.Stored?
    case SetInfo => s.phase.Saved?
    case Publish => s.phase.Informed?
    case Restart => Reopens(s)
  }

  function Step(hash: HashFn, s: State, a: Action): State
    requires Enabled(s, a)
  {
    match a
    case Store(b) => s.(blocks := s.blocks[b.header.number := b], phase := Stored(b))
    case Save => s.(saved := Some(CheckpointOf(hash, s.phase.b)), phase := Saved(s.phase.b))
    case Fail => s.(phase := Idle)
    case SetInfo => s.(info := InfoOf(hash, s.phase.b), phase := Informed(s.phase.b))
    case Publish => s.(cp := CheckpointOf(hash, s.phase.b), phase := Idle)
    case Restart =>
      var cp := SavedCheckpoint(s);
      State(s.blocks, Some(cp), cp, if cp.empty then NO_INFO else InfoOf(hash, s.blocks[cp.last]), Idle)
  }

  // Fewer than 2^64 blocks are ever added: none follows the block of the highest number
  predicate Fits(s: State, a: Action) {
    a.Store? && !s.cp.empty ==> s.cp.last < MAX_UINT64
  }

  ghost predicate Run(hash: HashFn, s: State, acts: seq<Action>, s': State)
    decreases |acts|
  {
    if acts == [] then s' == s
    else Enabled(s, acts[0]) && Fits(s, acts[0]) && Run(hash, Step(hash, s, acts[0]), acts[1..], s')
  }

  const INITIAL := State(map[], None, NO_BLOCKS, NO_INFO, Idle)

  // ----- The chain

  // Every number from first to last has its block, linked to the one before
  ghost predicate Linked(hash: HashFn, blocks: map<uint64, Block>, first: uint64, last: uint64) {
    && first <= last
    && (forall n: uint64 :: first <= n <= last ==> n in blocks)
    && (forall n: uint64 :: first < n <= last ==> LinkedAt(hash, blocks, n))
  }

  predicate LinkedAt(hash: HashFn, blocks: map<uint64, Block>, n: uint64) {
    n > 0 && n in blocks && n - 1 in blocks && blocks[n].header.prev == hash(blocks[n - 1].header)
  }

  predicate Keyed(blocks: map<uint64, Block>) {
    forall n :: n in blocks ==> blocks[n].header.number == n
  }

  // The checkpoint names the head of a linked chain
  ghost predicate HeadOf(hash: HashFn, blocks: map<uint64, Block>, first: uint64, cp: Checkpoint) {
    if cp.empty then cp == NO_BLOCKS
    else Linked(hash, blocks, first, cp.last) && cp.hash == hash(blocks[cp.last].header)
  }

  ghost predicate InfoFor(hash: HashFn, blocks: map<uint64, Block>, cp: Checkpoint, info: Info) {
    if cp.empty then info == NO_INFO else cp.last in blocks && info == InfoOf(hash, blocks[cp.last])
  }

  ghost predicate InFlight(s: State, b: Block) {
    && ValidNext(s.cp, b) && b.header.number in s.blocks && s.blocks[b.header.number] == b
    && (s.cp.empty || s.cp.last < MAX_UINT64)
  }

  /**
    The blocks from first to the checkpoint are contiguous and hash-linked, and checkpoint and blockchain info
    describe the head, however far an AddBlock has come.
   */
  ghost predicate Inv(hash: HashFn, first: uint64, s: State) {
    && Keyed(s.blocks)
    && HeadOf(hash, s.blocks, first, SavedCheckpoint(s)) && HeadOf(hash, s.blocks, first, s.cp)
    && match s.phase
       case Idle => SavedCheckpoint(s) == s.cp && InfoFor(hash, s.blocks, s.cp, s.info)
       case Stored(b) => SavedCheckpoint(s) == s.cp && InfoFor(hash, s.blocks, s.cp, s.info) && InFlight(s, b)
       case Saved(b) => SavedCheckpoint(s) == CheckpointOf(hash, b) && InfoFor(hash, s.blocks, s.cp, s.info) &&
           InFlight(s, b)
       case Informed(b) => SavedCheckpoint(s) == CheckpointOf(hash, b) && s.info == InfoOf(hash, b) && InFlight(s, b)
  }

  // Some number does for first; the runs below say which
  ghost predicate Sound(hash: HashFn, s: State) {
    exists first :: Inv(hash, first, s)
  }

  lemma LinkedBelow(hash: HashFn, blocks: map<uint64, Block>, first: uint64, last: uint64, b: Block)
    requires Linked(hash, blocks, first, last) && last < b.header.number
    ensures Linked(hash, blocks[b.header.number := b], first, last)
  {
    var blocks' := blocks[b.header.number := b];
    forall n: uint64 | first < n <= last ensures LinkedAt(hash, blocks', n) {
      assert LinkedAt(hash, blocks, n);
    }
  }

  lemma StoreKeepsInv(hash: HashFn, first: uint64, s: State, b: Block)
    requires Inv(hash, first, s) && s.phase.Idle? && ValidNext(s.cp, b) && (s.cp.empty || s.cp.last < MAX_UINT64)
    ensures Inv(hash, first, Step(hash, s, Store(b)))
  {
    if !s.cp.empty {
      LinkedBelow(hash, s.blocks, first, s.cp.last, b);
    }
  }

  lemma SaveKeepsInv(hash: HashFn, first: uint64, s: State)
    requires Inv(hash, first, s) && s.phase.Stored?
    ensures Inv(hash, if s.cp.empty then s.phase.b.header.number else first, Step(hash, s, Save))
  {
    var b := s.phase.b;
    if !s.cp.empty {
      assert LinkedAt(hash, s.blocks, b.header.number);
      forall n: uint64 | first < n <= b.header.number ensures LinkedAt(hash, s.blocks, n) {
      }
    }
  }

  // Before the first checkpoint is saved there is no chain to start anywhere
  lemma AnyFirst(hash: HashFn, first: uint64, s: State, first': uint64)
    requires Inv(hash, first, s) && SavedCheckpoint(s).empty
    ensures Inv(hash, first', s)
  {
  }

  /** Each step keeps the chain from its first block, which is the block of the first checkpoint saved. */
  lemma StepKeepsInv(hash: HashFn, first: uint64, s: State, a: Action)
    requires Inv(hash, first, s) && Enabled(s, a) && Fits(s, a)
    requires a.Save? && s.cp.empty ==> first == s.phase.b.header.number
    ensures Inv(hash, first, Step(hash, s, a))
    ensures !SavedCheckpoint(s).empty ==> !SavedCheckpoint(Step(hash, s, a)).empty
  {
    match a
    case Store(b) =>
      StoreKeepsInv(hash, first, s, b);
    case Save =>
      SaveKeepsInv(hash, first, s);
    case Fail =>
    case SetInfo =>
    case Publish =>
    case Restart =>
  }

  lemma StepKeepsSound(hash: HashFn, s: State, a: Action)
    requires Sound(hash, s) && Enabled(s, a) && Fits(s, a)
    ensures Sound(hash, Step(hash, s, a))
  {
    var first :| Inv(hash, first, s);
    if a.Save? && s.cp.empty {
      AnyFirst(hash, first, s, s.phase.b.header.number);
      StepKeepsInv(hash, s.phase.b.header.number, s, a);
    } else {
      StepKeepsInv(hash, first, s, a);
    }
  }

  lemma {:induction false} RunKeepsSound(hash: HashFn, s: State, acts: seq<Action>, s': State)
    requires Sound(hash, s) && Run(hash, s, acts, s')
    ensures Sound(hash, s')
    decreases |acts|
  {
    if acts != [] {
      StepKeepsSound(hash, s, acts[0]);
      RunKeepsSound(hash, Step(hash, s, acts[0]), acts[1..], s');
    }
  }

  /**
    Once a checkpoint is saved, every run of added blocks, failures, crashes between their steps and reopens keeps
    the whole chain from the same first block.
   */
  lemma {:induction false} RunKeepsInv(hash: HashFn, first: uint64, s: State, acts: seq<Action>, s': State)
    requires Inv(hash, first, s) && !SavedCheckpoint(s).empty && Run(hash, s, acts, s')
    ensures Inv(hash, first, s') && !SavedCheckpoint(s').empty
    decreases |acts|
  {
    if acts != [] {
      StepKeepsInv(hash, first, s, acts[0]);
      RunKeepsInv(hash, first, Step(hash, s, acts[0]), acts[1..], s');
    }
  }

  // The number of the first block whose checkpoint is saved
  function FirstSaved(hash: HashFn, s: State, acts: seq<Action>): Option<uint64>
    decreases |acts|
  {
    if acts == [] || !Enabled(s, acts[0]) then None
    else if acts[0].Save? then Some(s.phase.b.header.number)
    else FirstSaved(hash, Step(hash, s, acts[0]), acts[1..])
  }

  lemma {:induction false} ChainFromEmpty(hash: HashFn, s: State, acts: seq<Action>, s': State)
    requires Inv(hash, 0, s) && SavedCheckpoint(s).empty && Run(hash, s, acts, s')
    ensures match FirstSaved(hash, s, acts)
            case None => s'.cp.empty && SavedCheckpoint(s').empty
            case Some(first) => Inv(hash, first, s') && !SavedCheckpoint(s').empty
    decreases |acts|
  {
    if acts != [] {
      var next := Step(hash, s, acts[0]);
      if acts[0].Save? {
        var first := s.phase.b.header.number;
        AnyFirst(hash, 0, s, first);
        StepKeepsInv(hash, first, s, acts[0]);
        RunKeepsInv(hash, first, next, acts[1..], s');
      } else {
        StepKeepsInv(hash, 0, s, acts[0]);
        ChainFromEmpty(hash, next, acts[1..], s');
      }
    }
  }

  lemma InitialInv(hash: HashFn)
    ensures Inv(hash, 0, INITIAL)
  {
  }

  /** In every reachable state the blocks from the first one checkpointed to the checkpoint are one linked chain. */
  lemma ChainFromFirst(hash: HashFn, acts: seq<Action>, s: State)
    requires Run(hash, INITIAL, acts, s)
    ensures FirstSaved(hash, INITIAL, acts).None? ==> s.cp.empty
    ensures var first := FirstSaved(hash, INITIAL, acts);
            !s.cp.empty ==> first.Some? && Linked(hash, s.blocks, first.value, s.cp.last) && Inv(hash, first.value, s)
  {
    InitialInv(hash);
    ChainFromEmpty(hash, INITIAL, acts, s);
  }

  /**
    In every idle state reached with blocks, the blockchain info gives the head's successor as the height, the head's
    hash as the current hash and the hash of the block before it as the previous hash.
   */
  lemma InfoDescribesHead(hash: HashFn, acts: seq<Action>, s: State)
    requires Run(hash, INITIAL, acts, s) && s.phase.Idle?
    ensures s.cp.empty ==> s.info == Info(0, [], [])
    ensures !s.cp.empty ==>
              && s.cp.last in s.blocks && s.info.height == Increment(s.cp.last)
              && s.info.current == s.cp.hash == hash(s.blocks[s.cp.last].header)
              && s.info.previous == s.blocks[s.cp.last].header.prev
    ensures var first := FirstSaved(hash, INITIAL, acts);
            !s.cp.empty ==> first.Some? && (first.value < s.cp.last ==>
                s.cp.last - 1 in s.blocks && s.info.previous == hash(s.blocks[s.cp.last - 1].header))
  {
    InitialInv(hash);
    RunKeepsSound(hash, INITIAL, acts, s);
    ChainFromFirst(hash, acts, s);
    var first := FirstSaved(hash, INITIAL, acts);
    if !s.cp.empty && first.value < s.cp.last {
      assert LinkedAt(hash, s.blocks, s.cp.last);
    }
  }

  /** A block is taken exactly when the chain is empty or it continues the stored head in number and hash. */
  lemma TakesNextIff(hash: HashFn, acts: seq<Action>, s: State, b: Block)
    requires Run(hash, INITIAL, acts, s) && s.phase.Idle?
    ensures Enabled(s, Store(b)) <==>
            s.cp.empty || (s.cp.last in s.blocks && b.header.number == Increment(s.cp.last) &&
                           b.header.prev == hash(s.blocks[s.cp.last].header))
  {
    InfoDescribesHead(hash, acts, s);
  }

  /** Wherever the process stopped, the store reopens. */
  lemma AlwaysReopens(hash: HashFn, acts: seq<Action>, s: State)
    requires Run(hash, INITIAL, acts, s)
    ensures Reopens(s)
  {
    InitialInv(hash);
    RunKeepsSound(hash, INITIAL, acts, s);
  }

  // ----- Blocks at or below the checkpoint are final

  ghost predicate Final(s: State, s': State) {
    !s.cp.empty ==>
      && !s'.cp.empty && s.cp.last <= s'.cp.last
      && forall n: uint64 :: n <= s.cp.last ==>
           (n in s.blocks <==> n in s'.blocks) && (n in s.blocks ==> s.blocks[n] == s'.blocks[n])
  }

  lemma StepFinal(hash: HashFn, s: State, a: Action)
    requires Sound(hash, s) && Enabled(s, a) && Fits(s, a)
    ensures Final(s, Step(hash, s, a))
  {
  }

  /** No block at or below a published checkpoint is ever written again, and checkpoints only advance. */
  lemma {:induction false} RunFinal(hash: HashFn, s: State, acts: seq<Action>, s': State)
    requires Sound(hash, s) && Run(hash, s, acts, s')
    ensures Final(s, s')
    decreases |acts|
  {
    if acts != [] {
      var mid := Step(hash, s, acts[0]);
      StepFinal(hash, s, acts[0]);
      StepKeepsSound(hash, s, acts[0]);
      RunFinal(hash, mid, acts[1..], s');
    }
  }

  // ----- Reading

  /** The highest number asks for the newest block. */
  function Retrieve(s: State, n: uint64): Option<Block> {
    var number := if n == MAX_UINT64 then Decrement(s.info.height) else n;
    if number in s.blocks then Some(s.blocks[number]) else None
  }

  /** Asked for the newest block, an idle store with blocks returns the block its checkpoint names. */
  lemma NewestIsHead(hash: HashFn, s: State)
    requires Sound(hash, s) && s.phase.Idle? && !s.cp.empty
    ensures s.cp.last in s.blocks && Retrieve(s, MAX_UINT64) == Some(s.blocks[s.cp.last])
    ensures s.cp.hash == hash(s.blocks[s.cp.last].header)
  {
  }

  /** Once its checkpoint is published a block is read by its number and as the newest one, and older reads stay. */
  lemma AddedIsRead(hash: HashFn, acts: seq<Action>, s: State, b: Block, n: uint64)
    requires Run(hash, INITIAL, acts, s) && Enabled(s, Store(b)) && Fits(s, Store(b))
    ensures var s' := Step(hash, Step(hash, Step(hash, Step(hash, s, Store(b)), Save), SetInfo), Publish);
            && s'.phase.Idle? && s'.cp == Checkpoint(false, b.header.number, hash(b.header))
            && Retrieve(s', b.header.number) == Some(b) && Retrieve(s', MAX_UINT64) == Some(b)
            && (n != b.header.number && n != MAX_UINT64 ==> Retrieve(s', n) == Retrieve(s, n))
  {
  }

  // ----- The iterator

  // Parked between calls; waiting for a newer checkpoint; about to read
  datatype ItrPhase = Parked | Waiting | Reading

  datatype Itr = Itr(start: uint64, max: uint64, next: uint64, closed: bool, phase: ItrPhase, yielded: seq<Block>)

  datatype ItrAction = CallNext | Wake | ReadNext | Close

  datatype System = System(store: State, itr: Itr)

  // Any step of the store, except the end of the process, or of the iterator
  datatype Move = OfStore(a: Action) | OfItr(i: ItrAction)

  function NewItr(s: State, start: uint64): Itr {
    Itr(start, s.cp.last, start, false, Parked, [])
  }

  predicate CanMove(sys: System, m: Move) {
    match m
    case OfStore(a) => !a.Restart? && Enabled(sys.store, a) && Fits(sys.store, a)
    case OfItr(CallNext) => sys.itr.phase.Parked?
    case OfItr(Wake) => sys.itr.phase.Waiting? && (sys.store.cp.last >= sys.itr.next || sys.itr.closed)
    case OfItr(ReadNext) => sys.itr.phase.Reading?
    case OfItr(Close) => true
  }

  function ItrStep(s: State, itr: Itr, i: ItrAction): Itr {
    match i
    case CallNext => itr.(phase := if itr.max < itr.next then Waiting else Reading)
    case Wake => itr.(max := s.cp.last, phase := Reading)
    case ReadNext =>
      var b := Retrieve(s, itr.next);
      if itr.closed || b.None? then itr.(phase := Parked)
      else itr.(phase := Parked, next := Increment(itr.next), yielded := itr.yielded + [b.value])
    case Close => itr.(closed := true)
  }

  function SystemStep(hash: HashFn, sys: System, m: Move): System
    requires CanMove(sys, m)
  {
    match m
    case OfStore(a) => sys.(store := Step(hash, sys.store, a))
    case OfItr(i) => sys.(itr := ItrStep(sys.store, sys.itr, i))
  }

  ghost predicate SystemRun(hash: HashFn, sys: System, ms: seq<Move>, sys': System)
    decreases |ms|
  {
    if ms == [] then sys' == sys
    else CanMove(sys, ms[0]) && SystemRun(hash, SystemStep(hash, sys, ms[0]), ms[1..], sys')
  }

  // The i-th number from start
  function Nth(start: uint64, i: nat): uint64 {
    (start + i) % (MAX_UINT64 + 1)
  }

  // A read is of a published block
  predicate WithinCheckpoint(s: State, n: uint64) {
    !s.cp.empty && n <= s.cp.last
  }

  ghost predicate ItrInv(s: State, itr: Itr) {
    && (s.cp.empty ==> itr.max == 0 && itr.next > 0 && itr.yielded == [])
    && (!s.cp.empty ==> itr.max <= s.cp.last)
    && (itr.phase.Reading? && !itr.closed ==> WithinCheckpoint(s, itr.next))
    && itr.next == Nth(itr.start, |itr.yielded|)
    && (forall i :: 0 <= i < |itr.yielded| ==> Yields(s, itr, i))
  }

  // The i-th block yielded is the stored one of the i-th number, at or below the checkpoint
  ghost predicate Yields(s: State, itr: Itr, i: nat)
    requires i < |itr.yielded|
  {
    var n := Nth(itr.start, i);
    WithinCheckpoint(s, n) && n in s.blocks && itr.yielded[i] == s.blocks[n]
  }

  lemma NthNext(start: uint64, i: nat)
    ensures Nth(start, i + 1) == Increment(Nth(start, i))
  {
  }

  lemma NthSmall(start: uint64, i: nat)
    requires start + i <= MAX_UINT64
    ensures Nth(start, i) == start + i
  {
  }

  // At the highest number the newest block is the one asked for
  lemma RetrieveWithin(hash: HashFn, s: State, n: uint64)
    requires Sound(hash, s) && WithinCheckpoint(s, n) && Retrieve(s, n).Some?
    ensures n in s.blocks && Retrieve(s, n).value == s.blocks[n]
  {
  }

  lemma StoreKeepsItr(hash: HashFn, s: State, itr: Itr, a: Action)
    requires Sound(hash, s) && Enabled(s, a) && Fits(s, a) && !a.Restart? && ItrInv(s, itr)
    ensures ItrInv(Step(hash, s, a), itr)
  {
    StepFinal(hash, s, a);
    var s' := Step(hash, s, a);
    forall i | 0 <= i < |itr.yielded| ensures Yields(s', itr, i) {
      assert Yields(s, itr, i);
    }
  }

  lemma ItrStepKeepsItr(hash: HashFn, s: State, itr: Itr, i: ItrAction)
    requires Sound(hash, s) && CanMove(System(s, itr), OfItr(i)) && ItrInv(s, itr)
    ensures ItrInv(s, ItrStep(s, itr, i))
  {
    var itr' := ItrStep(s, itr, i);
    NthNext(itr.start, |itr.yielded|);
    if i.ReadNext? && !itr.closed && Retrieve(s, itr.next).Some? {
      RetrieveWithin(hash, s, itr.next);
    }
    forall j | 0 <= j < |itr'.yielded| ensures Yields(s, itr', j) {
      if j < |itr.yielded| {
        assert Yields(s, itr, j);
      }
    }
  }

  lemma {:induction false} SystemRunKeepsInv(hash: HashFn, sys: System, ms: seq<Move>, sys': System)
    requires Sound(hash, sys.store) && ItrInv(sys.store, sys.itr) && SystemRun(hash, sys, ms, sys')
    ensures Sound(hash, sys'.store) && ItrInv(sys'.store, sys'.itr) && sys'.itr.start == sys.itr.start
    decreases |ms|
  {
    if ms != [] {
      match ms[0] {
        case OfStore(a) =>
          StepKeepsSound(hash, sys.store, a);
          StoreKeepsItr(hash, sys.store, sys.itr, a);
        case OfItr(i) =>
          ItrStepKeepsItr(hash, sys.store, sys.itr, i);
      }
      SystemRunKeepsInv(hash, SystemStep(hash, sys, ms[0]), ms[1..], sys');
    }
  }

  /**
    However adding and iterating interleave, an iterator made on a nonempty chain, or for a start above 0, yields
    the stored blocks of consecutive numbers once each, and never reads past the checkpoint.
   */
  lemma IteratorFollowsChain(hash: HashFn, s: State, start: uint64, ms: seq<Move>, sys: System)
    requires Sound(hash, s) && (!s.cp.empty || start > 0)
    requires SystemRun(hash, System(s, NewItr(s, start)), ms, sys)
    ensures sys.itr.phase.Reading? && !sys.itr.closed ==> WithinCheckpoint(sys.store, sys.itr.next)
    ensures sys.itr.next == Nth(start, |sys.itr.yielded|)
    ensures forall i :: 0 <= i < |sys.itr.yielded| ==>
              Yields(sys.store, sys.itr, i) && sys.itr.yielded[i].header.number == Nth(start, i)
  {
    NewItrInv(hash, s, start);
    SystemRunKeepsInv(hash, System(s, NewItr(s, start)), ms, sys);
    var first :| Inv(hash, first, sys.store);
  }

  // What the store did during the moves
  function StoreActions(ms: seq<Move>): seq<Action> {
    if ms == [] then []
    else (if ms[0].OfStore? then [ms[0].a] else []) + StoreActions(ms[1..])
  }

  lemma {:induction false} SystemRunOfStore(hash: HashFn, sys: System, ms: seq<Move>, sys': System)
    requires SystemRun(hash, sys, ms, sys')
    ensures Run(hash, sys.store, StoreActions(ms), sys'.store)
    decreases |ms|
  {
    if ms != [] {
      SystemRunOfStore(hash, SystemStep(hash, sys, ms[0]), ms[1..], sys');
      if ms[0].OfStore? {
        assert StoreActions(ms)[1..] == StoreActions(ms[1..]);
      } else {
        assert StoreActions(ms) == StoreActions(ms[1..]);
      }
    }
  }

  lemma {:induction false} RunOn(hash: HashFn, s: State, a: seq<Action>, mid: State, b: seq<Action>, s': State)
    requires Run(hash, s, a, mid) && Run(hash, mid, b, s')
    ensures Run(hash, s, a + b, s')
    decreases |a|
  {
    if a == [] {
      assert a + b == b;
    } else {
      RunOn(hash, Step(hash, s, a[0]), a[1..], mid, b, s');
      assert (a + b)[1..] == a[1..] + b;
    }
  }

  lemma LinkedYields(hash: HashFn, first: uint64, sys: System, i: nat)
    requires Inv(hash, first, sys.store) && ItrInv(sys.store, sys.itr) && i + 1 < |sys.itr.yielded|
    requires first <= sys.itr.start + i < MAX_UINT64
    ensures sys.itr.yielded[i + 1].header.prev == hash(sys.itr.yielded[i].header)
  {
    NthSmall(sys.itr.start, i);
    NthNext(sys.itr.start, i);
    assert Yields(sys.store, sys.itr, i) && Yields(sys.store, sys.itr, i + 1);
    assert LinkedAt(hash, sys.store.blocks, Nth(sys.itr.start, i + 1));
  }

  /**
    Whatever was added before and during the iteration, consecutive blocks from the chain's first one on are
    yielded hash-linked.
   */
  lemma YieldedLinked(hash: HashFn, acts: seq<Action>, s: State, start: uint64, ms: seq<Move>, sys: System, i: nat)
    requires Run(hash, INITIAL, acts, s) && (!s.cp.empty || start > 0)
    requires SystemRun(hash, System(s, NewItr(s, start)), ms, sys)
    requires i + 1 < |sys.itr.yielded| && start + i < MAX_UINT64
    ensures var first := FirstSaved(hash, INITIAL, acts + StoreActions(ms));
            first.Some? && (first.value <= start + i ==>
                sys.itr.yielded[i + 1].header.prev == hash(sys.itr.yielded[i].header))
  {
    var all := acts + StoreActions(ms);
    WholeRun(hash, acts, s, start, ms, sys);
    ItrReached(hash, acts, s, start, ms, sys);
    ChainFromFirst(hash, all, sys.store);
    assert !sys.store.cp.empty;
    var first := FirstSaved(hash, INITIAL, all).value;
    if first <= start + i {
      LinkedYields(hash, first, sys, i);
    }
  }

  lemma WholeRun(hash: HashFn, acts: seq<Action>, s: State, start: uint64, ms: seq<Move>, sys: System)
    requires Run(hash, INITIAL, acts, s) && SystemRun(hash, System(s, NewItr(s, start)), ms, sys)
    ensures Run(hash, INITIAL, acts + StoreActions(ms), sys.store)
  {
    SystemRunOfStore(hash, System(s, NewItr(s, start)), ms, sys);
    RunOn(hash, INITIAL, acts, s, StoreActions(ms), sys.store);
  }

  lemma ItrReached(hash: HashFn, acts: seq<Action>, s: State, start: uint64, ms: seq<Move>, sys: System)
    requires Run(hash, INITIAL, acts, s) && (!s.cp.empty || start > 0)
    requires SystemRun(hash, System(s, NewItr(s, start)), ms, sys)
    ensures ItrInv(sys.store, sys.itr) && sys.itr.start == start
  {
    InitialInv(hash);
    RunKeepsSound(hash, INITIAL, acts, s);
    NewItrInv(hash, s, start);
    SystemRunKeepsInv(hash, System(s, NewItr(s, start)), ms, sys);
  }

  lemma NewItrInv(hash: HashFn, s: State, start: uint64)
    requires Sound(hash, s) && (!s.cp.empty || start > 0)
    ensures ItrInv(s, NewItr(s, start))
  {
  }

  lemma MoveOn(hash: HashFn, sys: System, m: Move, ms: seq<Move>, sys': System)
    requires CanMove(sys, m) && SystemRun(hash, SystemStep(hash, sys, m), ms, sys')
    ensures SystemRun(hash, sys, [m] + ms, sys')
  {
    assert ([m] + ms)[1..] == ms;
  }

  /** A call of an open iterator whose next block is published returns that block. */
  lemma IteratorProgresses(hash: HashFn, first: uint64, sys: System) returns (ms: seq<Move>, sys': System)
    requires Inv(hash, first, sys.store) && sys.itr.phase.Parked? && !sys.itr.closed
    requires WithinCheckpoint(sys.store, sys.itr.next) && first <= sys.itr.next
    ensures [OfItr(CallNext)] <= ms && SystemRun(hash, sys, ms, sys') && sys'.store == sys.store
    ensures sys.itr.next in sys.store.blocks && sys'.itr.phase.Parked?
    ensures sys'.itr.yielded == sys.itr.yielded + [sys.store.blocks[sys.itr.next]]
  {
    var sys1 := SystemStep(hash, sys, OfItr(CallNext));
    if sys1.itr.phase.Waiting? {
      var sys2 := SystemStep(hash, sys1, OfItr(Wake));
      sys' := SystemStep(hash, sys2, OfItr(ReadNext));
      MoveOn(hash, sys2, OfItr(ReadNext), [], sys');
      MoveOn(hash, sys1, OfItr(Wake), [OfItr(ReadNext)], sys');
      MoveOn(hash, sys, OfItr(CallNext), [OfItr(Wake)] + [OfItr(ReadNext)], sys');
      ms := [OfItr(CallNext)] + ([OfItr(Wake)] + [OfItr(ReadNext)]);
    } else {
      sys' := SystemStep(hash, sys1, OfItr(ReadNext));
      MoveOn(hash, sys1, OfItr(ReadNext), [], sys');
      MoveOn(hash, sys, OfItr(CallNext), [OfItr(ReadNext)], sys');
      ms := [OfItr(CallNext)] + [OfItr(ReadNext)];
    }
  }

  /** Close is possible at any time, even while a call waits, and a closed iterator returns no more blocks. */
  lemma {:induction false} ClosedYieldsNothing(hash: HashFn, sys: System, ms: seq<Move>, sys': System)
    requires SystemRun(hash, sys, ms, sys')
    ensures CanMove(sys, OfItr(Close)) && SystemStep(hash, sys, OfItr(Close)).itr == sys.itr.(closed := true)
    ensures sys.itr.closed ==> sys'.itr.closed && sys'.itr.yielded == sys.itr.yielded
    ensures sys.itr.closed && sys.itr.phase.Waiting? ==> CanMove(sys, OfItr(Wake))
    decreases |ms|
  {
    if ms != [] {
      ClosedYieldsNothing(hash, SystemStep(hash, sys, ms[0]), ms[1..], sys');
    }
  }

  ghost predicate ReadsPast(sys: System) {
    sys.itr.phase.Reading? && !sys.itr.closed && !WithinCheckpoint(sys.store, sys.itr.next)
  }

  ghost predicate GoesPast(hash: HashFn, sys0: System) {
    exists ms, sys :: SystemRun(hash, sys0, ms, sys) && ReadsPast(sys)
  }

  /** An iterator from 0 on an empty chain reads at once instead of waiting, and only that goes past the checkpoint. */
  lemma ReadsPastOnlyWhenEmpty(hash: HashFn, s: State, start: uint64)
    requires Sound(hash, s)
    ensures GoesPast(hash, System(s, NewItr(s, start))) <==> s.cp.empty && start == 0
  {
    var sys0 := System(s, NewItr(s, start));
    if s.cp.empty && start == 0 {
      var sys1 := SystemStep(hash, sys0, OfItr(CallNext));
      assert SystemRun(hash, sys1, [], sys1);
      assert [OfItr(CallNext)][1..] == [];
      assert SystemRun(hash, sys0, [OfItr(CallNext)], sys1);
      assert ReadsPast(sys1);
    } else {
      forall ms, sys | SystemRun(hash, sys0, ms, sys) ensures !ReadsPast(sys) {
        IteratorFollowsChain(hash, s, start, ms, sys);
      }
    }
  }
}
