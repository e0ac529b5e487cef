/**
  MkdirsOps as the calls they make on the transactional store. Any number of ops
  run at once, their calls interleaving freely with each other, with transactions
  that never commit (such as listings), and with the detector's bookkeeping.

  Every such run shows as a run of Mkdirs, in which an op is only a snapshot, an id
  drawn and a commit; so what Mkdirs proves holds of the store's database.
 */
module MkdirsOverStore {
  import opened ByteStrings
  import opened KvTypes
  import opened Serde
  import opened DirTable
  import Mkdirs
  import MkdirLedger
  import Store = StoreRuns
  import TxnStore
  import IdGen
  import Protocol
  import Listing
  import Paging

  // -------------------------------------------------------------- the calls

  /** The Gets of KVDirTable::Read, in order. */
  function ReadCalls(t: int, snapshot: Db, id: U64): seq<Store.Event> {
    var inode := Lookup(snapshot, IdKey(InodeCF, id));
    if inode.None? || DeInode(inode.value).None? || !DeInode(inode.value).value.DirRow? then
      [Store.Get(t, IdKey(InodeCF, id), false)]
    else if ReadTime(snapshot, MTimeCF, id).None? then
      [Store.Get(t, IdKey(InodeCF, id), false), Store.Get(t, IdKey(MTimeCF, id), false)]
    else
      [Store.Get(t, IdKey(InodeCF, id), false), Store.Get(t, IdKey(MTimeCF, id), false), Store.Get(t, IdKey(ATimeCF, id), false)]
  }

  /** The Puts of KVDirTable::Write for a new row, in order. */
  function WriteCalls(t: int, d: Dir): seq<Store.Event> {
    [Store.Put(t, IdKey(InodeCF, d.id), InodeDir(d.parentId, d.name, d.id, d.ctime)),
     Store.Put(t, IdKey(MTimeCF, d.id), TimeValue(d.mtime)),
     Store.Put(t, IdKey(ATimeCF, d.id), TimeValue(d.atime)),
     Store.Put(t, NameKey(d.parentId, d.name), DEntDir(d.parentId, d.name, d.id))]
  }

  /** The write set after the first n of those Puts. */
  function PutsDone(d: Dir, n: nat): WriteSet
    requires n <= 4
  {
    if n == 0 then map[]
    else
      var call := WriteCalls(0, d)[n - 1];
      PutsDone(d, n - 1)[call.key := Some(call.value)]
  }

  /** The calls are those of the table's own Read and Write. */
  lemma CallsOfTheTable(t: int, snapshot: Db, id: U64, d: Dir)
    ensures forall k :: k in KeysRead(snapshot, id) <==> Store.Get(t, k, false) in ReadCalls(t, snapshot, id)
    ensures PutsDone(d, 4) == DirWrite(map[], None, Some(d))
  {
    AllPuts(d);
  }

  lemma AllPuts(d: Dir)
    ensures PutsDone(d, 4) == DirWrite(map[], None, Some(d))
  {
    var row := Some(DirRow(d));
    var ws1 := AfterWrite(map[], InodeSerde, None, row);
    var ws2 := AfterWrite(ws1, MTimeSerde, None, row);
    assert PutsDone(d, 0) == map[];
    assert PutsDone(d, 1) == ws1;
    assert PutsDone(d, 2) == ws2;
    assert PutsDone(d, 3) == AfterWrite(ws2, ATimeSerde, None, row);
  }

  // ------------------------------------------------------------------- runs

  /** Where an op is: next counts the Gets or Puts already made. */
  datatype Op = Reading(req: Mkdirs.Request, next: nat) | Writing(req: Mkdirs.Request, dir: Dir, next: nat)

  /** Ops are named by their transaction's start version. draws: all ids drawn, in order. */
  datatype State = State(store: Store.State, ops: map<int, Op>, draws: seq<U64>)

  /** Call is op t's next call on the store. Other is a call on behalf of someone else. */
  datatype Event =
    | Begin(req: Mkdirs.Request)
    | Call(t: int)
    | Draw(t: int, id: U64, now: I64)
    | Other(call: Store.Event)

  function Snapshot(s: State, t: int): Db {
    if t in s.store.live then s.store.live[t].txn.snapshot else map[]
  }

  /** The calls op t makes in its present phase. */
  function Calls(s: State, t: int): seq<Store.Event>
    requires t in s.ops
  {
    match s.ops[t]
    case Reading(req, _) => ReadCalls(t, Snapshot(s, t), req.parentId)
    case Writing(_, d, _) => WriteCalls(t, d)
  }

  predicate Commits(s: State, t: int) {
    t in s.ops && s.ops[t].Writing? && s.ops[t].next >= 4
  }

  function CallStep(s: State, t: int): State
    requires t in s.ops
  {
    var op := s.ops[t];
    if op.next < |Calls(s, t)| then
      s.(store := Store.Step(s.store, Calls(s, t)[op.next]), ops := s.ops[t := op.(next := op.next + 1)])
    else if Commits(s, t) then
      s.(store := Store.Step(s.store, Store.Commit(t)), ops := s.ops - {t})
    else s
  }

  predicate Draws(s: State, t: int) {
    t in s.ops && s.ops[t].Reading? && s.ops[t].next >= |Calls(s, t)|
  }

  function DrawStep(s: State, t: int, id: U64, now: I64): State
    requires Draws(s, t)
  {
    var req := s.ops[t].req;
    match Mkdirs.Decide(Snapshot(s, t), req)
    case Refuse(_) => s.(ops := s.ops - {t})
    case Make(parent) => s.(ops := s.ops[t := Writing(req, Mkdirs.NewDir(parent, req, id, now), 0)], draws := s.draws + [id])
  }

  /** Not a commit, and not on an op's transaction. */
  predicate Harmless(s: State, call: Store.Event) {
    call.Start? || call.Record? || call.PurgeTo? || (!call.Commit? && call.t !in s.ops)
  }

  function Step(s: State, e: Event): State {
    match e
    case Begin(req) => s.(store := Store.Step(s.store, Store.Start), ops := s.ops[s.store.version := Reading(req, 0)])
    case Call(t) => if t in s.ops then CallStep(s, t) else s
    case Draw(t, id, now) => if Draws(s, t) then DrawStep(s, t, id, now) else s
    case Other(call) => if Harmless(s, call) then s.(store := Store.Step(s.store, call)) else s
  }

  function Run(s: State, es: seq<Event>): State {
    if |es| == 0 then s else Step(Run(s, es[..|es| - 1]), es[|es| - 1])
  }

  /** A new store. */
  const START: State := State(Store.Init(map[]), map[], [])

  // -------------------------------------------------------------- projection

  /** What a step is in a run of Mkdirs, if anything. */
  function Shown(s: State, e: Event): seq<Mkdirs.Event> {
    match e
    case Begin(req) => [Mkdirs.Begin(s.store.version, req)]
    case Call(t) => if Commits(s, t) then [Mkdirs.Finish(t, Store.Accepted(s.store, t))] else []
    case Draw(t, id, now) => if Draws(s, t) then [Mkdirs.Draw(t, id, now)] else []
    case Other(_) => []
  }

  function Project(s: State, es: seq<Event>): seq<Mkdirs.Event> {
    if |es| == 0 then [] else Project(s, es[..|es| - 1]) + Shown(Run(s, es[..|es| - 1]), es[|es| - 1])
  }

  /** Only inode and time keys of the parent are in an op's read set. */
  ghost predicate ReadsParent(readSet: map<Key, TxnStore.Observation>, parentId: U64) {
    forall k :: k in readSet ==> Mkdirs.IdFamily(k.cf) && k == IdKey(k.cf, parentId)
  }

  /** The op and its transaction are at the same point. */
  ghost predicate OpShows(op: Op, txn: TxnStore.TxnView, p: Mkdirs.Pending) {
    && p.req == op.req && p.snapshot == txn.snapshot && ReadsParent(txn.readSet, op.req.parentId)
    && (op.Writing? || op.next > 0 ==> IdKey(InodeCF, op.req.parentId) in txn.readSet)
    && match op
       case Reading(_, _) => p.made == None && txn.writeSet == map[]
       case Writing(_, d, n) => p.made == Some(d) && n <= 4 && txn.writeSet == PutsDone(d, n)
  }

  /** In the id families a committed transaction wrote the keys of the row it created. */
  ghost predicate WroteRow(ws: WriteSet, id: U64) {
    IdKey(InodeCF, id) in ws && forall k :: k in ws && Mkdirs.IdFamily(k.cf) ==> k == IdKey(k.cf, id)
  }

  ghost predicate OpsShow(s: State, open: map<int, Mkdirs.Pending>) {
    && open.Keys == s.ops.Keys
    && (forall t :: t in s.ops ==> t in s.store.live && OpShows(s.ops[t], s.store.live[t].txn, open[t]))
  }

  ghost predicate CommitsShow(commits: seq<Store.Live>, order: seq<U64>) {
    |commits| == |order| && forall i :: 0 <= i < |commits| ==> WroteRow(commits[i].txn.writeSet, order[i])
  }

  ghost predicate Shows(s: State, w: Mkdirs.World) {
    && Store.Versions(s.store)
    && w.db == s.store.db && w.ids == s.draws
    && OpsShow(s, w.open)
    && CommitsShow(s.store.commits, w.order)
  }

  lemma ReadCallIsGet(t: int, snapshot: Db, id: U64, n: nat)
    requires n < |ReadCalls(t, snapshot, id)|
    ensures var call := ReadCalls(t, snapshot, id)[n];
            && call.Get? && call.t == t && Mkdirs.IdFamily(call.key.cf) && call.key == IdKey(call.key.cf, id)
            && (n == 0 ==> call.key.cf.InodeCF?) && !call.exclude
  {
  }

  lemma GetShows(op: Op, l: Store.Live, p: Mkdirs.Pending, call: Store.Event)
    requires OpShows(op, l.txn, p) && op.Reading?
    requires call.Get? && Mkdirs.IdFamily(call.key.cf) && call.key == IdKey(call.key.cf, op.req.parentId)
    requires !call.exclude && (op.next == 0 ==> call.key.cf.InodeCF?)
    ensures OpShows(Reading(op.req, op.next + 1), Store.Touch(l, call).txn, p)
  {
  }

  lemma PutShows(op: Op, l: Store.Live, p: Mkdirs.Pending, t: int)
    requires OpShows(op, l.txn, p) && op.Writing? && op.next < 4
    ensures OpShows(Writing(op.req, op.dir, op.next + 1), Store.Touch(l, WriteCalls(t, op.dir)[op.next]).txn, p)
  {
  }

  /** A call on one op's transaction leaves the other ops alone. */
  lemma TouchShows(s: State, w: Mkdirs.World, t: int, call: Store.Event, op: Op)
    requires Shows(s, w) && t in s.ops && (call.Get? || call.Put?) && call.t == t
    requires OpShows(op, Store.Touch(s.store.live[t], call).txn, w.open[t])
    ensures Shows(s.(store := Store.Step(s.store, call), ops := s.ops[t := op]), w)
  {
    Store.VersionsStep(s.store, call);
  }

  lemma CallShows(s: State, w: Mkdirs.World, t: int)
    requires Shows(s, w) && t in s.ops && s.ops[t].next < |Calls(s, t)|
    ensures Shows(CallStep(s, t), w)
  {
    var op, l := s.ops[t], s.store.live[t];
    var call := Calls(s, t)[op.next];
    if op.Reading? {
      ReadCallIsGet(t, l.txn.snapshot, op.req.parentId, op.next);
      GetShows(op, l, w.open[t], call);
    } else {
      PutShows(op, l, w.open[t], t);
    }
    TouchShows(s, w, t, call, op.(next := op.next + 1));
  }

  lemma BeginShows(s: State, w: Mkdirs.World, req: Mkdirs.Request)
    requires Shows(s, w)
    ensures Shows(Step(s, Begin(req)), Mkdirs.Step(w, Mkdirs.Begin(s.store.version, req)))
  {
    Store.VersionsStep(s.store, Store.Start);
  }

  lemma DrawnOpShows(op: Op, txn: TxnStore.TxnView, p: Mkdirs.Pending, d: Dir)
    requires OpShows(op, txn, p) && op.Reading? && op.next > 0
    ensures OpShows(Writing(op.req, d, 0), txn, p.(made := Some(d)))
  {
  }

  lemma DrawShows(s: State, w: Mkdirs.World, t: int, id: U64, now: I64)
    requires Shows(s, w) && Draws(s, t)
    ensures Shows(DrawStep(s, t, id, now), Mkdirs.Step(w, Mkdirs.Draw(t, id, now)))
  {
    var op, txn, p := s.ops[t], s.store.live[t].txn, w.open[t];
    assert OpShows(op, txn, p);
    var decision := Mkdirs.Decide(txn.snapshot, op.req);
    if decision.Make? { DrawnOpShows(op, txn, p, Mkdirs.NewDir(decision.parent, op.req, id, now)); }
  }

  lemma OtherShows(s: State, w: Mkdirs.World, call: Store.Event)
    requires Shows(s, w) && Harmless(s, call)
    ensures Shows(Step(s, Other(call)), w)
  {
    Store.VersionsStep(s.store, call);
  }

  lemma PutsWriteRow(d: Dir)
    ensures WroteRow(PutsDone(d, 4), d.id)
  {
    AllPuts(d);
    DirWriteKeys(d);
  }

  lemma DirWriteKeys(d: Dir)
    ensures WroteRow(DirWrite(map[], None, Some(d)), d.id)
  {
  }

  lemma CommitEffect(s: Store.State, t: int)
    requires t in s.live
    ensures var s' := Store.Step(s, Store.Commit(t));
            && s'.live == s.live - {t}
            && s'.db == (if Store.Accepted(s, t) then Overlay(s.db, s.live[t].txn.writeSet) else s.db)
            && s'.commits == s.commits + (if Store.Accepted(s, t) then [Store.Committed(s, t)] else [])
            && Store.Committed(s, t).txn.writeSet == s.live[t].txn.writeSet
  {
  }

  lemma CommitsShowAppend(commits: seq<Store.Live>, order: seq<U64>, c: Store.Live, id: U64)
    requires CommitsShow(commits, order) && WroteRow(c.txn.writeSet, id)
    ensures CommitsShow(commits + [c], order + [id])
  {
  }

  lemma OpsShowWithout(s: State, open: map<int, Mkdirs.Pending>, t: int, store: Store.State)
    requires OpsShow(s, open) && store.live == s.store.live - {t}
    ensures OpsShow(s.(store := store, ops := s.ops - {t}), open - {t})
  {
  }

  lemma CommitShows(s: State, w: Mkdirs.World, t: int)
    requires Shows(s, w) && Commits(s, t)
    ensures Shows(CallStep(s, t), Mkdirs.Step(w, Mkdirs.Finish(t, Store.Accepted(s.store, t))))
  {
    var d := s.ops[t].dir;
    assert OpShows(s.ops[t], s.store.live[t].txn, w.open[t]);
    CommitEffect(s.store, t);
    AllPuts(d);
    PutsWriteRow(d);
    Store.VersionsStep(s.store, Store.Commit(t));
    OpsShowWithout(s, w.open, t, Store.Step(s.store, Store.Commit(t)));
    CommitsShowAppend(s.store.commits, w.order, Store.Committed(s.store, t), d.id);
    assert CallStep(s, t) == s.(store := Store.Step(s.store, Store.Commit(t)), ops := s.ops - {t});
  }

  lemma ShowsStep(s: State, w: Mkdirs.World, e: Event)
    requires Shows(s, w)
    ensures Shows(Step(s, e), Mkdirs.Run(w, Shown(s, e)))
  {
    match e
    case Begin(req) => BeginShows(s, w, req); RunOfOne(w, Mkdirs.Begin(s.store.version, req));
    case Call(t) =>
      if Commits(s, t) {
        CommitShows(s, w, t);
        RunOfOne(w, Mkdirs.Finish(t, Store.Accepted(s.store, t)));
      } else if t in s.ops && s.ops[t].next < |Calls(s, t)| {
        CallShows(s, w, t);
      }
    case Draw(t, id, now) => if Draws(s, t) { DrawShows(s, w, t, id, now); RunOfOne(w, Mkdirs.Draw(t, id, now)); }
    case Other(call) => if Harmless(s, call) { OtherShows(s, w, call); }
  }

  lemma RunOfOne(w: Mkdirs.World, e: Mkdirs.Event)
    ensures Mkdirs.Run(w, [e]) == Mkdirs.Step(w, e)
  {
    assert [e][..0] == [];
  }

  /**
    Projection. Every interleaving of mkdir ops' store calls with each other and with
    transactions that do not commit shows as a run of Mkdirs with the same database,
    the same ids, and the verdicts the detector really gave.
   */
  lemma {:induction false} Projects(s: State, w: Mkdirs.World, es: seq<Event>)
    requires Shows(s, w)
    ensures Shows(Run(s, es), Mkdirs.Run(w, Project(s, es)))
    decreases |es|
  {
    if |es| > 0 {
      var before, e := es[..|es| - 1], es[|es| - 1];
      Projects(s, w, before);
      ShowsStep(Run(s, before), Mkdirs.Run(w, Project(s, before)), e);
      Mkdirs.RunConcat(w, Project(s, before), Shown(Run(s, before), e));
    }
  }

  // ------------------------------------------------- the store keeps its own

  /** Every step makes at most one call on the store. */
  lemma StepIsCall(s: State, e: Event) returns (call: Store.Event)
    ensures Step(s, e).store == s.store || Step(s, e).store == Store.Step(s.store, call)
  {
    call := Store.Start;
    match e
    case Begin(_) =>
    case Call(t) => if t in s.ops { call := if s.ops[t].next < |Calls(s, t)| then Calls(s, t)[s.ops[t].next] else Store.Commit(t); }
    case Draw(_, _, _) =>
    case Other(c) => call := c;
  }

  lemma {:induction false} StoreInv(es: seq<Event>)
    ensures Store.Inv(Run(START, es).store)
    decreases |es|
  {
    if |es| == 0 {
      Store.InvRun(map[], []);
    } else {
      StoreInv(es[..|es| - 1]);
      var s := Run(START, es[..|es| - 1]);
      var call := StepIsCall(s, es[|es| - 1]);
      Store.InvStep(s.store, call);
    }
  }

  /** The run of Mkdirs that a run from a new store shows as. */
  function World(es: seq<Event>): Mkdirs.World { Mkdirs.Run(Mkdirs.EMPTY, Project(START, es)) }

  lemma WorldShows(es: seq<Event>)
    ensures Shows(Run(START, es), World(es))
    ensures IdGen.Distinct(Run(START, es).draws) ==> Mkdirs.Inv(World(es))
  {
    Projects(START, Mkdirs.EMPTY, es);
    if IdGen.Distinct(Run(START, es).draws) { Mkdirs.RunKeepsInv(Mkdirs.EMPTY, Project(START, es)); }
  }

  /**
    The tree invariant, end to end: over a new store, with any interleaving of the ops'
    calls, any calls of others and any purges, and with the ids of a generator whose
    updates may be split, from its construction on.
   */
  lemma TreeOverStore(c: IdGen.Config, ges: seq<IdGen.Event>, es: seq<Event>, id: U64) returns (n: nat)
    requires c.node == 0 && c.clock == 0
    requires c.layout.TimestampHigh? || IdGen.AheadAtNexts(c, IdGen.START, ges)
    requires Run(START, es).draws == IdGen.Run(c, IdGen.START, ges).returned
    requires ReadDir(Run(START, es).store.db, id).Found?
    ensures var s := Run(START, es).store;
            && ReadDir(s.db, ReadDir(s.db, id).dir.parentId).Found?
            && n <= |s.commits| && Mkdirs.Climb(s.db, id, n) == ROOT_ID
            && (!IdGen.NextFirst(ges) ==> ReadDir(s.db, ROOT_ID) == Found(ROOT_DIR))
  {
    WorldShows(es);
    n := Mkdirs.TreeWithGenerator(c, ges, Project(START, es), id);
  }

  /** The store's database reads as the ledger of the run it shows says, by id and by name. */
  lemma LedgerOverStore(es: seq<Event>, id: U64, parentId: U64, name: Bytes)
    ensures var db, cs := Run(START, es).store.db, MkdirLedger.Ledger(Mkdirs.EMPTY, Project(START, es));
            var i, j := MkdirLedger.LastWithId(cs, id), MkdirLedger.LastNamed(cs, parentId, name);
            && ReadDir(db, id) == (if i >= 0 then Found(MkdirLedger.RowOf(cs[i])) else if id == ROOT_ID then Found(ROOT_DIR) else Missing)
            && ReadDent(db, parentId, name) == (if j >= 0 then Found(Dir(parentId, name, cs[j].id, NO_ACL, 0, 0, 0)) else Missing)
  {
    WorldShows(es);
    MkdirLedger.ReadsFollowLedger(Mkdirs.EMPTY, Project(START, es), id, parentId, name);
  }

  // ---------------------------------------------- mkdirs never conflict

  /** What was committed after an op began is not in the table it saw. */
  ghost predicate LateUnknown(open: map<int, Mkdirs.Pending>, commits: seq<Store.Live>, order: seq<U64>) {
    forall t, i :: t in open && 0 <= i < |commits| && i < |order| && Store.CommitVersion(commits[i]) > t ==>
      order[i] !in open[t].known
  }

  lemma LateAppend(open: map<int, Mkdirs.Pending>, commits: seq<Store.Live>, order: seq<U64>, c: Store.Live, id: U64)
    requires LateUnknown(open, commits, order) && |commits| == |order|
    requires forall t :: t in open ==> id !in open[t].known
    ensures LateUnknown(open, commits + [c], order + [id])
  {
  }

  lemma LateWithout(open: map<int, Mkdirs.Pending>, commits: seq<Store.Live>, order: seq<U64>, t: int)
    requires LateUnknown(open, commits, order)
    ensures LateUnknown(open - {t}, commits, order)
  {
  }

  lemma MadeUnknown(w: Mkdirs.World, t: int, u: int)
    requires Mkdirs.Inv(w) && t in w.open && w.open[t].made.Some? && u in w.open
    ensures w.open[t].made.value.id !in w.open[u].known
  {
    assert Mkdirs.PendingWell(w.rows, w.ids, w.open[t]) && Mkdirs.PendingWell(w.rows, w.ids, w.open[u]);
  }

  /** Closing an op, and committing its row if accepted, leaves nothing late known. */
  lemma LateFinish(w: Mkdirs.World, commits: seq<Store.Live>, t: int, c: Store.Live)
    requires LateUnknown(w.open, commits, w.order) && |commits| == |w.order| && Mkdirs.Inv(w)
    requires t in w.open && w.open[t].made.Some?
    ensures LateUnknown(w.open - {t}, commits, w.order)
    ensures LateUnknown(w.open - {t}, commits + [c], w.order + [w.open[t].made.value.id])
  {
    LateWithout(w.open, commits, w.order, t);
    forall u | u in w.open - {t} ensures w.open[t].made.value.id !in w.open[u].known { MadeUnknown(w, t, u); }
    LateAppend(w.open - {t}, commits, w.order, c, w.open[t].made.value.id);
  }

  lemma LateCommit(s: State, w: Mkdirs.World, t: int)
    requires Shows(s, w) && LateUnknown(w.open, s.store.commits, w.order) && Mkdirs.Inv(w) && Commits(s, t)
    ensures var w' := Mkdirs.Step(w, Mkdirs.Finish(t, Store.Accepted(s.store, t)));
            LateUnknown(w'.open, CallStep(s, t).store.commits, w'.order)
  {
    assert OpShows(s.ops[t], s.store.live[t].txn, w.open[t]);
    CommitEffect(s.store, t);
    LateFinish(w, s.store.commits, t, Store.Committed(s.store, t));
  }

  /** Only commits change the history. */
  lemma CommitsKept(s: State, e: Event)
    requires !(e.Call? && Commits(s, e.t))
    ensures Step(s, e).store.commits == s.store.commits
  {
    if e.Call? && e.t in s.ops && s.ops[e.t].Reading? && s.ops[e.t].next < |Calls(s, e.t)| {
      ReadCallIsGet(e.t, Snapshot(s, e.t), s.ops[e.t].req.parentId, s.ops[e.t].next);
    }
  }

  lemma LateDraw(w: Mkdirs.World, commits: seq<Store.Live>, e: Mkdirs.Event)
    requires LateUnknown(w.open, commits, w.order) && e.Draw?
    ensures LateUnknown(Mkdirs.Step(w, e).open, commits, Mkdirs.Step(w, e).order)
  {
  }

  lemma LateBegin(s: State, w: Mkdirs.World, req: Mkdirs.Request)
    requires Shows(s, w) && LateUnknown(w.open, s.store.commits, w.order)
    ensures var w' := Mkdirs.Step(w, Mkdirs.Begin(s.store.version, req));
            LateUnknown(w'.open, s.store.commits, w'.order)
  {
  }

  lemma LateStep(s: State, w: Mkdirs.World, e: Event)
    requires Shows(s, w) && LateUnknown(w.open, s.store.commits, w.order) && Mkdirs.Inv(w)
    ensures var w' := Mkdirs.Run(w, Shown(s, e)); LateUnknown(w'.open, Step(s, e).store.commits, w'.order)
  {
    if |Shown(s, e)| == 1 { RunOfOne(w, Shown(s, e)[0]); }
    if e.Call? && Commits(s, e.t) {
      LateCommit(s, w, e.t);
    } else {
      CommitsKept(s, e);
      if e.Begin? { LateBegin(s, w, e.req); }
      if e.Draw? && Draws(s, e.t) { LateDraw(w, s.store.commits, Mkdirs.Draw(e.t, e.id, e.now)); }
    }
  }

  lemma DrawsKept(s: State, e: Event)
    requires IdGen.Distinct(Step(s, e).draws)
    ensures IdGen.Distinct(s.draws)
  {
    if Step(s, e).draws != s.draws { IdGen.DistinctAppend(s.draws, e.id); }
  }

  lemma {:induction false} LateRun(es: seq<Event>)
    requires IdGen.Distinct(Run(START, es).draws)
    ensures LateUnknown(World(es).open, Run(START, es).store.commits, World(es).order)
    decreases |es|
  {
    if |es| > 0 {
      var before, e := es[..|es| - 1], es[|es| - 1];
      var s := Run(START, before);
      DrawsKept(s, e);
      LateRun(before);
      WorldShows(before);
      LateStep(s, World(before), e);
      Mkdirs.RunConcat(Mkdirs.EMPTY, Project(START, before), Shown(s, e));
    }
  }

  /** The log holds a commit after t that stored the root's inode. */
  ghost predicate RootLogged(log: map<int, TxnStore.TxnView>, t: int) {
    exists v :: v in log && v > t && IdKey(InodeCF, ROOT_ID) in log[v].writeSet
  }

  lemma ConflictIsParent(op: Op, txn: TxnStore.TxnView, p: Mkdirs.Pending, c: TxnStore.TxnView, id: U64)
    requires OpShows(op, txn, p) && WroteRow(c.writeSet, id) && TxnStore.HasConflict(txn, c)
    ensures id == op.req.parentId
  {
    var k :| k in c.writeSet && k in txn.readSet;
    Encode64Injective(id, op.req.parentId);
  }

  /** A row the op did not know can conflict with it only by being the root under which it creates. */
  lemma UnknownConflict(op: Op, txn: TxnStore.TxnView, p: Mkdirs.Pending, c: TxnStore.TxnView, id: U64)
    requires OpShows(op, txn, p) && op.Writing? && Mkdirs.ParentKnown(p, op.dir)
    requires WroteRow(c.writeSet, id) && id !in p.known && TxnStore.HasConflict(txn, c)
    ensures id == ROOT_ID == op.req.parentId
  {
    ConflictIsParent(op, txn, p, c, id);
  }

  lemma LoggedCommit(s: Store.State, v: int) returns (i: nat)
    requires Store.Inv(s) && v in s.detector.log
    ensures i < |s.commits| && s.detector.log[v] == s.commits[i].txn && Store.CommitVersion(s.commits[i]) == v < s.version
  {
    i :| 0 <= i < |s.commits| && s.detector.log[v] == s.commits[i].txn;
  }

  lemma RootConflicts(s: State, w: Mkdirs.World, t: int)
    requires Shows(s, w) && Store.Inv(s.store) && t in s.ops && s.ops[t].Writing?
    requires s.ops[t].req.parentId == ROOT_ID && RootLogged(s.store.detector.log, t)
    ensures !Store.Accepted(s.store, t)
  {
    var v :| v in s.store.detector.log && v > t && IdKey(InodeCF, ROOT_ID) in s.store.detector.log[v].writeSet;
    var _ := LoggedCommit(s.store, v);
    var txn := Store.CommitOf(s.store, t).txn;
    assert OpShows(s.ops[t], s.store.live[t].txn, w.open[t]);
    assert TxnStore.HasConflict(txn, s.store.detector.log[v]);
  }

  /** A refusal above the purge mark is due to some logged commit after the start. */
  lemma RefusalWitness(s: Store.State, t: int) returns (i: nat)
    requires Store.Inv(s) && t in s.live && s.detector.purged <= t && !Store.Accepted(s, t)
    ensures i < |s.commits| && Store.CommitVersion(s.commits[i]) > t
    ensures TxnStore.HasConflict(s.live[t].txn, s.commits[i].txn)
    ensures Store.CommitVersion(s.commits[i]) in s.detector.log && s.detector.log[Store.CommitVersion(s.commits[i])] == s.commits[i].txn
  {
    var v :| v in s.detector.log && t <= v && TxnStore.HasConflict(Store.CommitOf(s, t).txn, s.detector.log[v]);
    i := LoggedCommit(s, v);
  }

  lemma LateConflict(es: seq<Event>, t: int, i: nat)
    requires IdGen.Distinct(Run(START, es).draws) && t in Run(START, es).ops && Run(START, es).ops[t].Writing?
    requires i < |Run(START, es).store.commits| && Store.CommitVersion(Run(START, es).store.commits[i]) > t
    ensures var s := Run(START, es);
            t in s.store.live && TxnStore.HasConflict(s.store.live[t].txn, s.store.commits[i].txn) ==>
              s.ops[t].req.parentId == ROOT_ID && IdKey(InodeCF, ROOT_ID) in s.store.commits[i].txn.writeSet
  {
    WorldShows(es);
    LateRun(es);
    var s, w := Run(START, es), World(es);
    if TxnStore.HasConflict(s.store.live[t].txn, s.store.commits[i].txn) {
      assert Mkdirs.PendingWell(w.rows, w.ids, w.open[t]);
      UnknownConflict(s.ops[t], s.store.live[t].txn, w.open[t], s.store.commits[i].txn, w.order[i]);
    }
  }

  /** A commit after t can conflict with op t only by storing the root. */
  lemma OnlyRootConflicts(es: seq<Event>, t: int)
    requires IdGen.Distinct(Run(START, es).draws) && t in Run(START, es).ops && Run(START, es).ops[t].Writing?
    ensures var s := Run(START, es);
            s.store.detector.purged <= t && !Store.Accepted(s.store, t) ==>
              s.ops[t].req.parentId == ROOT_ID && RootLogged(s.store.detector.log, t)
  {
    StoreInv(es);
    WorldShows(es);
    var store := Run(START, es).store;
    if store.detector.purged <= t && !Store.Accepted(store, t) {
      var i := RefusalWitness(store, t);
      LateConflict(es, t, i);
    }
  }

  lemma RootWasDrawn(s: State, w: Mkdirs.World, t: int)
    requires Shows(s, w) && Mkdirs.Inv(w) && Store.Inv(s.store) && RootLogged(s.store.detector.log, t)
    ensures ROOT_ID in s.draws
  {
    var v :| v in s.store.detector.log && v > t && IdKey(InodeCF, ROOT_ID) in s.store.detector.log[v].writeSet;
    var i := LoggedCommit(s.store, v);
    assert WroteRow(s.store.commits[i].txn.writeSet, w.order[i]);
    Encode64Injective(w.order[i], ROOT_ID);
  }

  /**
    Mkdirs do not conflict. Whatever has been recorded, also with every commit in the
    log, a mkdir that has drawn its id is refused only for having started below the
    purge mark, or, once the root's id has been drawn, for creating under the root while
    the root itself was stored. So two creations of one name both commit.
   */
  lemma MkdirsDoNotConflict(es: seq<Event>, t: int)
    requires IdGen.Distinct(Run(START, es).draws) && t in Run(START, es).ops && Run(START, es).ops[t].Writing?
    ensures var s := Run(START, es);
            && (Store.Accepted(s.store, t) <==>
                  s.store.detector.purged <= t && !(s.ops[t].req.parentId == ROOT_ID && RootLogged(s.store.detector.log, t)))
            && (ROOT_ID !in s.draws ==> (Store.Accepted(s.store, t) <==> s.store.detector.purged <= t))
  {
    StoreInv(es);
    WorldShows(es);
    OnlyRootConflicts(es, t);
    var s, w := Run(START, es), World(es);
    if RootLogged(s.store.detector.log, t) {
      RootWasDrawn(s, w, t);
      if s.ops[t].req.parentId == ROOT_ID { RootConflicts(s, w, t); }
    }
  }

  // ------------------------------------------------- paging during mkdirs

  function DbAt(es: seq<Event>, i: nat): Db
    requires i <= |es|
  {
    Run(START, es[..i]).store.db
  }

  lemma FinishKeepsKeys(w: Mkdirs.World, e: Mkdirs.Event)
    ensures w.db.Keys <= Mkdirs.Step(w, e).db.Keys
  {
    if e.Finish? && e.op in w.open && w.open[e.op].made.Some? { Mkdirs.CreateAddsEntries(w.db, w.open[e.op].made.value); }
  }

  lemma StepKeepsKeys(s: State, w: Mkdirs.World, e: Event)
    requires Shows(s, w)
    ensures s.store.db.Keys <= Step(s, e).store.db.Keys
  {
    ShowsStep(s, w, e);
    if |Shown(s, e)| == 1 {
      RunOfOne(w, Shown(s, e)[0]);
      FinishKeepsKeys(w, Shown(s, e)[0]);
    }
  }

  lemma {:induction false} KeysGrow(es: seq<Event>, i: nat, j: nat)
    requires i <= j <= |es|
    ensures DbAt(es, i).Keys <= DbAt(es, j).Keys
    decreases j
  {
    if i < j {
      KeysGrow(es, i, j - 1);
      assert es[..j][..j - 1] == es[..j - 1];
      WorldShows(es[..j - 1]);
      StepKeepsKeys(Run(START, es[..j - 1]), World(es[..j - 1]), es[j - 1]);
    }
  }

  /** The names a full listing of a directory can return at some moment of the run. */
  ghost function ListableAt(es: seq<Event>, i: nat, parentId: U64): set<Bytes>
    requires i <= |es|
  {
    Listing.Listable(Listing.Names(DbAt(es, i), parentId), [])
  }

  lemma NamesGrow(es: seq<Event>, i: nat, j: nat, parentId: U64)
    requires i <= j <= |es|
    ensures ListableAt(es, i, parentId) <= ListableAt(es, j, parentId)
  {
    KeysGrow(es, i, j);
    forall n | n in ListableAt(es, i, parentId) ensures n in ListableAt(es, j, parentId) {
      Listing.NamesMember(DbAt(es, i), parentId, n);
      Listing.NamesMember(DbAt(es, j), parentId, n);
    }
  }

  ghost function DirsAt(es: seq<Event>, at: seq<nat>, parentId: U64): (dirs: seq<set<Bytes>>)
    requires forall i :: 0 <= i < |at| ==> at[i] <= |es|
    ensures |dirs| == |at| && forall i :: 0 <= i < |at| ==> dirs[i] == ListableAt(es, at[i], parentId)
  {
    seq(|at|, i requires 0 <= i < |at| => ListableAt(es, at[i], parentId))
  }

  ghost function NamesOf(pages: seq<seq<Protocol.DEnt>>): (names: seq<seq<Bytes>>)
    ensures |names| == |pages| && forall i :: 0 <= i < |pages| ==> names[i] == Listing.EntNames(pages[i])
  {
    seq(|pages|, i requires 0 <= i < |pages| => Listing.EntNames(pages[i]))
  }

  /** The page was listed at that moment of the run. */
  ghost predicate PageAt(es: seq<Event>, i: nat, parentId: U64, start: Bytes, limit: nat, page: seq<Protocol.DEnt>) {
    i <= |es| && Listing.IsPage(DbAt(es, i), parentId, start, limit, page)
  }

  /** Each page is listed at its own moment, from the last name of the full page before. */
  ghost predicate PagesDuring(es: seq<Event>, at: seq<nat>, pages: seq<seq<Protocol.DEnt>>, parentId: U64, limit: nat) {
    && |at| == |pages| > 0 && limit > 0
    && (forall i :: 0 <= i < |pages| ==> PageAt(es, at[i], parentId, Paging.StartOf(NamesOf(pages), i), limit, pages[i]))
    && (forall i, j :: 0 <= i < j < |at| ==> at[i] <= at[j])
    && (forall i :: 0 <= i < |pages| - 1 ==> |pages[i]| == limit)
  }

  lemma PageNames(es: seq<Event>, i: nat, parentId: U64, start: Bytes, limit: nat, page: seq<Protocol.DEnt>)
    requires PageAt(es, i, parentId, start, limit, page)
    ensures FirstOf(Listing.EntNames(page), Paging.From(ListableAt(es, i, parentId), start), limit)
  {
    Paging.ListableFrom(Listing.Names(DbAt(es, i), parentId), start);
  }

  lemma PagesHaveNames(es: seq<Event>, at: seq<nat>, pages: seq<seq<Protocol.DEnt>>, parentId: U64, limit: nat)
    requires PagesDuring(es, at, pages, parentId, limit)
    ensures Paging.PagesOf(DirsAt(es, at, parentId), NamesOf(pages), limit)
  {
    var dirs, names := DirsAt(es, at, parentId), NamesOf(pages);
    forall i | 0 <= i < |pages| ensures FirstOf(names[i], Paging.From(dirs[i], Paging.StartOf(names, i)), limit) {
      PageNames(es, at[i], parentId, Paging.StartOf(names, i), limit, pages[i]);
    }
    forall i, j | 0 <= i < j < |at| ensures dirs[i] <= dirs[j] { NamesGrow(es, at[i], at[j], parentId); }
  }

  /**
    Listing a directory page by page while mkdirs run. The names read are strictly
    ascending and in the directory, and a name that was there when the first page was
    listed is read, unless it lies beyond a full last page.
   */
  lemma PagingDuringMkdirs(es: seq<Event>, at: seq<nat>, pages: seq<seq<Protocol.DEnt>>, parentId: U64, limit: nat)
    requires PagesDuring(es, at, pages, parentId, limit)
    ensures Paging.Progress(DirsAt(es, at, parentId)[0], DirsAt(es, at, parentId)[|at| - 1],
                            Paging.Joined(NamesOf(pages)), |pages[|pages| - 1]| < limit)
  {
    PagesHaveNames(es, at, pages, parentId, limit);
    Paging.PagingWhileGrowing(DirsAt(es, at, parentId), NamesOf(pages), limit);
  }
}
