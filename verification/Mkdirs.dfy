/**
  MkdirsOp, and runs of any number of MkdirsOps, each split where its transaction
  takes its snapshot, where it draws its id, and where it commits.
 */
module Mkdirs {
  import opened ByteStrings
  import opened KvTypes
  import opened TxnStore
  import opened Serde
  import opened DirTable
  import opened TableRefinement
  import Protocol
  import Listing
  import IdGen

  const S_IWOTH: bv64 := 0x2
  const S_ISGID: bv64 := 0x400

  datatype Request = Request(parentId: U64, name: Bytes, mode: bv64, uid: int, gid: int)

  datatype Response = ParentNotFound | PermissionDenied | CheckFailure | Created(dir: Dir)

  // ------------------------------------------------------------------ the op

  /** What the snapshot says about a request: refuse it, or create under the parent found. */
  datatype Decision = Refuse(response: Response) | Make(parent: Dir)

  function Decide(snapshot: Db, req: Request): Decision {
    match ReadDir(snapshot, req.parentId)
    case CheckFailed => Refuse(CheckFailure)
    case Missing => Refuse(ParentNotFound)
    case Found(p) => if CheckPermission(p.acl, req.uid, req.gid, S_IWOTH) then Make(p) else Refuse(PermissionDenied)
  }

  predicate SetGroupId(acl: Acl) { acl.perm & S_ISGID != 0 }

  function NewAcl(parent: Acl, req: Request): Acl {
    Acl(req.uid, if SetGroupId(parent) then parent.gid else req.gid, NewPerm(SetGroupId(parent), req.mode))
  }

  function NewPerm(inherited: bool, mode: bv64): bv64 {
    if inherited then (mode & ALLPERMS) | S_ISGID else mode & ALLPERMS
  }

  function NewDir(parent: Dir, req: Request, id: U64, now: I64): Dir {
    Dir(req.parentId, req.name, id, NewAcl(parent.acl, req), now, now, now)
  }

  function AfterCreate(db: Db, d: Dir): Db {
    Overlay(db, DirWrite(map[], None, Some(d)))
  }

  /** The op's write and commit, for a transaction no recorded commit is concurrent with. */
  method WriteAndCommit(store: KvStore, table: KVDirTable, dir: Dir)
    requires table.txn.writeSet == map[] && 0 < table.txn.startVersion < store.version
    requires forall v :: v in store.detector.committedTxns ==> v < table.txn.startVersion
    modifies store`db, store`version, table.txn`writeSet, table.txn`commitVersion
    ensures store.db == if old(store.detector.latestPurgedVersion) <= table.txn.startVersion
                        then AfterCreate(old(store.db), dir) else old(store.db)
  {
    table.Write(None, Some(dir));
    var _ := store.CommitTxn(table.txn);
  }

  /** The caller's ids and mode, with the group and bit of a set-group-ID parent. */
  method MakeAcl(parent: Acl, req: Request) returns (acl: Acl)
    ensures acl == NewAcl(parent, req)
  {
    acl := Acl(req.uid, req.gid, req.mode & ALLPERMS);
    if parent.perm & S_ISGID != 0 {
      acl := acl.(gid := parent.gid, perm := acl.perm | S_ISGID);
    }
  }

  /** The response reports the new directory whether or not the commit was accepted. */
  method Mkdirs(store: KvStore, gen: IdGen.IDGen, req: Request, now: I64) returns (resp: Response)
    requires store.version > 0 && forall v :: v in store.detector.committedTxns ==> v < store.version
    modifies store`db, store`version, gen`id
    ensures resp.Created? ==> resp.dir == Dir(req.parentId, req.name, gen.id, resp.dir.acl, now, now, now)
    ensures var decision := Decide(old(store.db), req);
            match decision {
              case Refuse(r) => resp == r && store.db == old(store.db) && gen.id == old(gen.id)
              case Make(p) =>
                && gen.id == IdGen.Increment(old(gen.id))
                && if IdGen.Checks(gen.config, gen.id) then
                     var d := NewDir(p, req, gen.id, now);
                     && resp == Created(d)
                     && store.db == if old(store.detector.latestPurgedVersion) <= old(store.version)
                                    then AfterCreate(old(store.db), d) else old(store.db)
                   else resp == CheckFailure && store.db == old(store.db)
            }
  {
    var txn := store.StartTxn();
    var table := new KVDirTable(txn);
    var parent := table.Read(req.parentId);
    if parent.CheckFailed? {
      return CheckFailure;
    }
    if parent.Missing? {
      return ParentNotFound;
    }
    if !CheckPermission(parent.dir.acl, req.uid, req.gid, S_IWOTH) {
      return PermissionDenied;
    }
    var id := gen.Next();
    if id.None? {
      return CheckFailure;
    }
    var acl := MakeAcl(parent.dir.acl, req);
    var dir := Dir(req.parentId, req.name, id.value, acl, now, now, now);
    WriteAndCommit(store, table, dir);
    resp := Created(dir);
  }

  /**
    A set-group-ID parent passes on its group and its bit; otherwise both are the
    caller's. Since the acl is not stored, the one parent that ever does so is the
    invented root, under which every directory is created set-group-ID with group 0.
    All other permission bits are the mode's, and none beyond the twelve.
   */
  lemma SetGroupIdInherited(db: Db, req: Request, id: U64, now: I64)
    requires Decide(db, req).Make?
    ensures var parent := Decide(db, req).parent;
            AclFrom(parent.acl, req, NewDir(parent, req, id, now).acl)
    ensures var parent := Decide(db, req).parent;
            && (SetGroupId(parent.acl) <==> IdKey(InodeCF, req.parentId) !in db)
            && (SetGroupId(parent.acl) ==> req.parentId == ROOT_ID && parent.acl.gid == 0)
  {
    NewAclBits(Decide(db, req).parent.acl, req);
    WhoMayCreate(db, req);
    ReadOutcome(db, req.parentId);
    SetGroupIdOfConstants();
  }

  /** Owner, group and permission bits of a new directory. */
  ghost predicate AclFrom(parent: Acl, req: Request, acl: Acl) {
    && acl.uid == req.uid
    && acl.gid == (if SetGroupId(parent) then parent.gid else req.gid)
    && PermFrom(SetGroupId(parent), req.mode, acl.perm)
  }

  /** Bit by bit: set-group-ID if inherited or asked for, the other eleven as asked for, and no more. */
  predicate PermFrom(inherited: bool, mode: bv64, perm: bv64) {
    && (perm & 0x400 != 0 <==> inherited || mode & 0x400 != 0)
    && perm & 0xBFF == mode & 0xBFF && perm & 0xFFF == perm
  }

  lemma NewAclBits(parent: Acl, req: Request)
    ensures AclFrom(parent, req, NewAcl(parent, req))
  {
    NewPermBits(SetGroupId(parent), req.mode);
  }

  lemma NewPermBits(inherited: bool, mode: bv64)
    ensures PermFrom(inherited, mode, NewPerm(inherited, mode))
  {
    if inherited { PermSet(mode); } else { PermPlain(mode); }
  }

  lemma PermPlain(mode: bv64)
    ensures (mode & ALLPERMS) & 0x400 == mode & 0x400
    ensures (mode & ALLPERMS) & 0xBFF == mode & 0xBFF
    ensures (mode & ALLPERMS) & 0xFFF == mode & ALLPERMS
  {
  }

  lemma PermSet(mode: bv64)
    ensures ((mode & ALLPERMS) | S_ISGID) & 0x400 != 0
    ensures ((mode & ALLPERMS) | S_ISGID) & 0xBFF == mode & 0xBFF
    ensures ((mode & ALLPERMS) | S_ISGID) & 0xFFF == (mode & ALLPERMS) | S_ISGID
  {
  }

  lemma SetGroupIdOfConstants()
    ensures SetGroupId(Acl(0, 0, 0xFFF)) && !SetGroupId(Acl(0, 0, 0))
  {
  }

  /**
    Which request is refused and how, on the stored values: the parent is not there or
    is a file; it is a stored directory and the user is not uid 0; or a CHECK fails.
    Anyone may create under the root while it is not stored.
   */
  lemma WhoMayCreate(db: Db, req: Request)
    ensures var v, decision := Lookup(db, IdKey(InodeCF, req.parentId)), Decide(db, req);
            && (decision == Refuse(ParentNotFound) <==> (v.None? && req.parentId != ROOT_ID) || (v.Some? && v.value.InodeFile?))
            && (decision == Refuse(PermissionDenied) <==> DirStored(db, req.parentId) && req.uid != 0)
            && (decision.Make? <==> (DirStored(db, req.parentId) && req.uid == 0) || (v.None? && req.parentId == ROOT_ID))
            && (decision.Refuse? ==> decision.response in {ParentNotFound, PermissionDenied, CheckFailure})
            && (decision.Make? ==> ReadDir(db, req.parentId) == Found(decision.parent))
  {
    ReadOutcome(db, req.parentId);
    var r := ReadDir(db, req.parentId);
    if r.Found? { CreateBit(r.dir.acl, req.uid, req.gid); }
  }

  /** The acl is not stored, so under any stored directory only uid 0 may create. */
  lemma OnlyUidZeroBelowStored(db: Db, req: Request)
    requires IdKey(InodeCF, req.parentId) in db && ReadDir(db, req.parentId).Found?
    ensures Decide(db, req).Make? <==> req.uid == 0
  {
  }

  // -------------------------------------------------------------------- runs

  /**
    An op between its snapshot and its commit. known is the table as of the snapshot;
    made is the row it is going to write, once it has drawn an id.
   */
  datatype Pending = Pending(req: Request, snapshot: Db, known: Rows, made: Option<Dir>)

  /** rows, order: the directories committed so far and the order of their commits. ids: all ids drawn. */
  datatype World = World(db: Db, open: map<int, Pending>, rows: Rows, order: seq<U64>, ids: seq<U64>)

  /**
    Draw is where the op has read its parent and either answers with a refusal or takes
    an id and a time. Finish carries the detector's verdict on its commit.
   */
  datatype Event = Begin(op: int, req: Request) | Draw(op: int, id: U64, now: I64) | Finish(op: int, accepted: bool)

  function Committed(w: World, d: Dir): World {
    w.(db := AfterCreate(w.db, d), rows := w.rows[d.id := d], order := w.order + [d.id])
  }

  function Drawn(w: World, op: int, id: U64, now: I64): World
    requires op in w.open
  {
    var p := w.open[op];
    match Decide(p.snapshot, p.req)
    case Refuse(_) => w.(open := w.open - {op})
    case Make(parent) => w.(open := w.open[op := p.(made := Some(NewDir(parent, p.req, id, now)))], ids := w.ids + [id])
  }

  function Step(w: World, e: Event): World {
    match e
    case Begin(op, req) => if op in w.open then w else w.(open := w.open[op := Pending(req, w.db, w.rows, None)])
    case Draw(op, id, now) => if op in w.open && w.open[op].made.None? then Drawn(w, op, id, now) else w
    case Finish(op, accepted) =>
      if op in w.open && w.open[op].made.Some? then
        var w' := w.(open := w.open - {op});
        if accepted then Committed(w', w.open[op].made.value) else w'
      else w
  }

  function Run(w: World, es: seq<Event>): World {
    if |es| == 0 then w else Step(Run(w, es[..|es| - 1]), es[|es| - 1])
  }

  const EMPTY: World := World(map[], map[], map[], [], [])

  // --------------------------------------------------------------- invariant

  predicate IdFamily(cf: CF) { cf.InodeCF? || cf.MTimeCF? || cf.ATimeCF? }

  ghost predicate Stored(db: Db, d: Dir) {
    && Lookup(db, IdKey(InodeCF, d.id)) == Some(InodeDir(d.parentId, d.name, d.id, d.ctime))
    && Lookup(db, IdKey(MTimeCF, d.id)) == Some(TimeValue(d.mtime))
    && Lookup(db, IdKey(ATimeCF, d.id)) == Some(TimeValue(d.atime))
  }

  /** The three id families are exactly the rows. */
  ghost predicate ById(db: Db, rows: Rows) {
    && (forall id :: id in rows ==> rows[id].id == id && Stored(db, rows[id]))
    && (forall k :: k in db && IdFamily(k.cf) ==> KeyOfRow(rows, k))
  }

  predicate KeyOfRow(rows: Rows, k: Key) {
    |k.bytes| == 8 && Decode64(k.bytes) in rows
  }

  /** Every dent names a row that carries that (parent, name), and every row's (parent, name) has a dent. */
  ghost predicate ByName(db: Db, rows: Rows) {
    && (forall k :: k in db && k.cf.DEntCF? ==> DentOfRow(rows, k, db[k]))
    && (forall id :: id in rows ==> NameKey(rows[id].parentId, rows[id].name) in db)
  }

  predicate DentOfRow(rows: Rows, k: Key, v: Value) {
    && v.DEntDir? && v.id in rows
    && rows[v.id].parentId == v.parentId && rows[v.id].name == v.name
    && k == NameKey(v.parentId, v.name)
  }

  /** order lists the rows once each, every parent being the root or listed earlier. */
  ghost predicate InOrder(rows: Rows, order: seq<U64>) {
    && IdGen.Distinct(order)
    && (forall id :: id in rows <==> id in order)
    && (forall i :: 0 <= i < |order| ==> ParentBefore(rows, order, i))
  }

  predicate ParentBefore(rows: Rows, order: seq<U64>, i: nat) {
    i < |order| && order[i] in rows && (rows[order[i]].parentId == ROOT_ID || rows[order[i]].parentId in order[..i])
  }

  /** A row about to be written has a drawn id no row has, and a parent that is the root or a row. */
  ghost predicate MadeWell(rows: Rows, ids: seq<U64>, d: Dir) {
    d.id in ids && d.id !in rows && (d.parentId == ROOT_ID || d.parentId in rows)
  }

  /** The new row's parent is the one asked for, and it was the root or a row of the snapshot. */
  ghost predicate ParentKnown(p: Pending, d: Dir) {
    d.parentId == p.req.parentId && (d.parentId == ROOT_ID || d.parentId in p.known)
  }

  ghost predicate PendingWell(rows: Rows, ids: seq<U64>, p: Pending) {
    && ById(p.snapshot, p.known) && p.known.Keys <= rows.Keys
    && (p.made.Some? ==> MadeWell(rows, ids, p.made.value) && ParentKnown(p, p.made.value))
  }

  ghost predicate MadeApart(p: Pending, q: Pending) {
    p.made.Some? && q.made.Some? ==> p.made.value.id != q.made.value.id
  }

  ghost predicate OpenWell(open: map<int, Pending>, rows: Rows, ids: seq<U64>) {
    && (forall op :: op in open ==> PendingWell(rows, ids, open[op]))
    && (forall a, b :: a in open && b in open && a != b ==> MadeApart(open[a], open[b]))
  }

  ghost predicate Inv(w: World) {
    && ById(w.db, w.rows)
    && ByName(w.db, w.rows)
    && InOrder(w.rows, w.order)
    && (forall id :: id in w.rows ==> id in w.ids)
    && OpenWell(w.open, w.rows, w.ids)
  }

  /** With the id families exact, a read by id finds exactly the rows, and no CHECK fails. */
  lemma ReadsRows(db: Db, rows: Rows, id: U64)
    requires ById(db, rows)
    ensures ReadDir(db, id) == if id in rows then Found(rows[id].(acl := NO_ACL))
                               else if id == ROOT_ID then Found(ROOT_DIR) else Missing
  {
    if id in rows {
      TimeRoundTrip(rows[id].mtime);
      TimeRoundTrip(rows[id].atime);
    } else {
      Encode64RoundTrip(id);
    }
  }

  lemma CreateAddsEntries(db: Db, d: Dir)
    ensures AfterCreate(db, d) == db + Entries(d)
  {
    SameLookups(Overlay(db, map[]), db);
    WriteSwapsEntries(db, map[], None, Some(d));
    assert (db - EntriesOf(None).Keys) + EntriesOf(Some(d)) == db + Entries(d);
  }

  lemma OthersStayStored(db: Db, r: Dir, d: Dir)
    requires Stored(db, r) && r.id != d.id
    ensures Stored(db + Entries(d), r)
  {
    Encode64Injective(r.id, d.id);
  }

  lemma NewIsStored(db: Db, d: Dir)
    ensures Stored(db + Entries(d), d)
  {
  }

  lemma IdKeyOfEntry(d: Dir, k: Key)
    requires k in Entries(d) && IdFamily(k.cf)
    ensures k == IdKey(k.cf, d.id)
  {
  }

  lemma RowsStored(db: Db, rows: Rows, d: Dir, id: U64)
    requires ById(db, rows) && d.id !in rows && id in rows[d.id := d]
    ensures rows[d.id := d][id].id == id && Stored(db + Entries(d), rows[d.id := d][id])
  {
    if id == d.id { NewIsStored(db, d); } else { OthersStayStored(db, rows[id], d); }
  }

  lemma KeysOfRows(db: Db, rows: Rows, d: Dir, k: Key)
    requires ById(db, rows) && k in db + Entries(d) && IdFamily(k.cf)
    ensures KeyOfRow(rows[d.id := d], k)
  {
    if k in Entries(d) {
      IdKeyOfEntry(d, k);
      Encode64RoundTrip(d.id);
    }
  }

  lemma CreateKeepsById(db: Db, rows: Rows, d: Dir)
    requires ById(db, rows) && d.id !in rows
    ensures ById(db + Entries(d), rows[d.id := d])
  {
    var db', rows' := db + Entries(d), rows[d.id := d];
    forall id | id in rows' ensures rows'[id].id == id && Stored(db', rows'[id]) { RowsStored(db, rows, d, id); }
    forall k | k in db' && IdFamily(k.cf) ensures KeyOfRow(rows', k) { KeysOfRows(db, rows, d, k); }
  }

  /** Also when the name was taken: the dent now names the new row. */
  lemma CreateKeepsByName(db: Db, rows: Rows, d: Dir)
    requires ByName(db, rows) && d.id !in rows
    ensures ByName(db + Entries(d), rows[d.id := d])
  {
  }

  lemma CreateKeepsOrder(rows: Rows, order: seq<U64>, d: Dir)
    requires InOrder(rows, order) && d.id !in rows && (d.parentId == ROOT_ID || d.parentId in rows)
    ensures InOrder(rows[d.id := d], order + [d.id])
  {
    var rows', order' := rows[d.id := d], order + [d.id];
    IdGen.DistinctAppend(order, d.id);
    forall i: nat | i < |order'| ensures ParentBefore(rows', order', i) {
      if i < |order| { assert ParentBefore(rows, order, i) && order'[..i] == order[..i]; } else { assert order'[..i] == order; }
    }
  }

  /** Other ops do not mind a new row under an id that is not theirs. */
  lemma CommitKeepsOpen(open: map<int, Pending>, rows: Rows, ids: seq<U64>, d: Dir)
    requires OpenWell(open, rows, ids)
    requires forall op :: op in open && open[op].made.Some? ==> open[op].made.value.id != d.id
    ensures OpenWell(open, rows[d.id := d], ids)
  {
    forall op | op in open ensures PendingWell(rows[d.id := d], ids, open[op]) {
      assert PendingWell(rows, ids, open[op]);
    }
  }

  /** Committing a row that was made well keeps the invariant, once its op is closed. */
  lemma CommitKeepsInv(w: World, d: Dir)
    requires Inv(w) && MadeWell(w.rows, w.ids, d)
    requires forall op :: op in w.open && w.open[op].made.Some? ==> w.open[op].made.value.id != d.id
    ensures Inv(Committed(w, d))
  {
    CreateAddsEntries(w.db, d);
    CreateKeepsById(w.db, w.rows, d);
    CreateKeepsByName(w.db, w.rows, d);
    CreateKeepsOrder(w.rows, w.order, d);
    CommitKeepsOpen(w.open, w.rows, w.ids, d);
  }

  lemma FinishKeepsInv(w: World, op: int, accepted: bool)
    requires Inv(w) && op in w.open && w.open[op].made.Some?
    ensures Inv(Step(w, Finish(op, accepted)))
  {
    var w' := w.(open := w.open - {op});
    assert Inv(w');
    if accepted { CommitKeepsInv(w', w.open[op].made.value); }
  }

  lemma DrawKeepsOpen(open: map<int, Pending>, rows: Rows, ids: seq<U64>, op: int, d: Dir)
    requires OpenWell(open, rows, ids) && op in open && open[op].made.None?
    requires d.id !in ids && d.id !in rows && ParentKnown(open[op], d)
    ensures OpenWell(open[op := open[op].(made := Some(d))], rows, ids + [d.id])
  {
  }

  lemma DrawKeepsInv(w: World, op: int, id: U64, now: I64)
    requires Inv(w) && op in w.open && w.open[op].made.None? && id !in w.ids
    ensures Inv(Drawn(w, op, id, now))
  {
    var p := w.open[op];
    var decision := Decide(p.snapshot, p.req);
    if decision.Make? {
      ReadsRows(p.snapshot, p.known, p.req.parentId);
      DrawKeepsOpen(w.open, w.rows, w.ids, op, NewDir(decision.parent, p.req, id, now));
    }
  }

  lemma RefusalKeepsInv(w: World, op: int, id: U64, now: I64)
    requires Inv(w) && op in w.open && Decide(w.open[op].snapshot, w.open[op].req).Refuse?
    ensures Inv(Drawn(w, op, id, now))
  {
  }

  lemma BeginKeepsOpen(open: map<int, Pending>, rows: Rows, ids: seq<U64>, op: int, p: Pending)
    requires OpenWell(open, rows, ids) && PendingWell(rows, ids, p) && p.made.None?
    ensures OpenWell(open[op := p], rows, ids)
  {
  }

  lemma BeginKeepsInv(w: World, op: int, req: Request)
    requires Inv(w) && op !in w.open
    ensures Inv(Step(w, Begin(op, req)))
  {
    BeginKeepsOpen(w.open, w.rows, w.ids, op, Pending(req, w.db, w.rows, None));
  }

  lemma DrawStepKeepsInv(w: World, op: int, id: U64, now: I64)
    requires Inv(w) && op in w.open && w.open[op].made.None? && IdGen.Distinct(Drawn(w, op, id, now).ids)
    ensures Inv(Drawn(w, op, id, now))
  {
    if Decide(w.open[op].snapshot, w.open[op].req).Make? {
      IdGen.DistinctAppend(w.ids, id);
      DrawKeepsInv(w, op, id, now);
    } else {
      RefusalKeepsInv(w, op, id, now);
    }
  }

  lemma StepKeepsInv(w: World, e: Event)
    requires Inv(w) && IdGen.Distinct(Step(w, e).ids)
    ensures Inv(Step(w, e))
  {
    match e
    case Begin(op, req) => if op !in w.open { BeginKeepsInv(w, op, req); }
    case Draw(op, id, now) => if op in w.open && w.open[op].made.None? { DrawStepKeepsInv(w, op, id, now); }
    case Finish(op, accepted) => if op in w.open && w.open[op].made.Some? { FinishKeepsInv(w, op, accepted); }
  }

  lemma PrefixDistinct(w: World, e: Event)
    requires IdGen.Distinct(Step(w, e).ids)
    ensures IdGen.Distinct(w.ids)
  {
    if Step(w, e).ids != w.ids { IdGen.DistinctAppend(w.ids, e.id); }
  }

  lemma {:induction false} RunKeepsInv(w: World, es: seq<Event>)
    requires Inv(w) && IdGen.Distinct(Run(w, es).ids)
    ensures Inv(Run(w, es))
    decreases |es|
  {
    if |es| > 0 {
      var before, e := Run(w, es[..|es| - 1]), es[|es| - 1];
      PrefixDistinct(before, e);
      RunKeepsInv(w, es[..|es| - 1]);
      StepKeepsInv(before, e);
    }
  }

  // ---------------------------------------------------------------- the tree

  /** n steps from a directory to its parent, as reads by id show it. */
  function Climb(db: Db, id: U64, n: nat): U64
    decreases n
  {
    if n == 0 then id
    else
      var r := ReadDir(db, id);
      Climb(db, if r.Found? then r.dir.parentId else id, n - 1)
  }

  lemma ClimbOneMore(db: Db, rows: Rows, id: U64, n: nat)
    requires ById(db, rows) && id in rows
    ensures Climb(db, id, n + 1) == Climb(db, rows[id].parentId, n)
  {
    ReadsRows(db, rows, id);
  }

  /** Where in the order a parent other than the root stands: before its child. */
  lemma ParentEarlier(rows: Rows, order: seq<U64>, i: nat) returns (j: nat)
    requires ParentBefore(rows, order, i) && rows[order[i]].parentId != ROOT_ID
    ensures j < i && order[j] == rows[order[i]].parentId
  {
    j :| 0 <= j < i && order[..i][j] == rows[order[i]].parentId;
  }

  lemma {:induction false} ClimbInOrder(db: Db, rows: Rows, order: seq<U64>, i: nat) returns (n: nat)
    requires ById(db, rows) && i < |order| && forall k :: 0 <= k < |order| ==> ParentBefore(rows, order, k)
    ensures n <= i + 1 && Climb(db, order[i], n) == ROOT_ID
    decreases i
  {
    assert ParentBefore(rows, order, i);
    var m := 0;
    if rows[order[i]].parentId != ROOT_ID {
      var j := ParentEarlier(rows, order, i);
      m := ClimbInOrder(db, rows, order, j);
    }
    ClimbOneMore(db, rows, order[i], m);
    n := m + 1;
  }

  lemma TreeOfRows(db: Db, rows: Rows, order: seq<U64>, id: U64) returns (n: nat)
    requires ById(db, rows) && InOrder(rows, order) && ReadDir(db, id).Found?
    ensures ReadDir(db, ReadDir(db, id).dir.parentId).Found?
    ensures n <= |order| && Climb(db, id, n) == ROOT_ID
  {
    ReadsRows(db, rows, id);
    if id in rows {
      var i :| 0 <= i < |order| && order[i] == id;
      n := ClimbInOrder(db, rows, order, i);
      ParentIsRow(rows, order, i);
      ReadsRows(db, rows, rows[id].parentId);
    } else {
      n := 0;
    }
  }

  lemma ParentIsRow(rows: Rows, order: seq<U64>, i: nat)
    requires InOrder(rows, order) && i < |order|
    ensures order[i] in rows && (rows[order[i]].parentId == ROOT_ID || rows[order[i]].parentId in rows)
  {
    assert ParentBefore(rows, order, i);
  }

  /**
    The tree invariant of mkdir runs. However the ops interleave and whichever commits
    are accepted, given distinct ids, the parent of every readable directory is readable
    and climbing parents from it reaches the root within the number of directories.
    Reading the root gives the invented root exactly until a mkdir commits under its
    id, which cannot happen unless that id was drawn.
   */
  lemma TreeInvariant(w: World, es: seq<Event>, id: U64) returns (n: nat)
    requires Inv(w) && IdGen.Distinct(Run(w, es).ids)
    requires ReadDir(Run(w, es).db, id).Found?
    ensures ReadDir(Run(w, es).db, ReadDir(Run(w, es).db, id).dir.parentId).Found?
    ensures n <= |Run(w, es).order| && Climb(Run(w, es).db, id, n) == ROOT_ID
    ensures ReadDir(Run(w, es).db, ROOT_ID) == Found(ROOT_DIR) <==> ROOT_ID !in Run(w, es).order
    ensures ROOT_ID !in Run(w, es).ids ==> ReadDir(Run(w, es).db, ROOT_ID) == Found(ROOT_DIR)
  {
    RunKeepsInv(w, es);
    var s := Run(w, es);
    ReadsRows(s.db, s.rows, ROOT_ID);
    n := TreeOfRows(s.db, s.rows, s.order, id);
  }

  lemma DentLeadsToRow(db: Db, rows: Rows, parentId: U64, name: Bytes)
    requires ById(db, rows) && ByName(db, rows) && NameKey(parentId, name) in db
    ensures var v := db[NameKey(parentId, name)];
            && v.DEntDir? && v.parentId == parentId && v.name == name
            && v.id in rows && rows[v.id].parentId == parentId && rows[v.id].name == name
  {
    var v := db[NameKey(parentId, name)];
    DentKeyInjective(parentId, name, v.parentId, v.name);
  }

  lemma ReadsNeverFail(db: Db, rows: Rows)
    requires ById(db, rows)
    ensures forall id :: !ReadDir(db, id).CheckFailed?
  {
  }

  /**
    No dangling entries. In every state a mkdir run reaches, even after names were
    created again, a directory found by (parent, name) is readable by its id with that
    parent and name, and no read fails a CHECK.
   */
  lemma NoDanglingDents(w: World, es: seq<Event>, parentId: U64, name: Bytes)
    requires Inv(w) && IdGen.Distinct(Run(w, es).ids)
    ensures var db := Run(w, es).db;
            && !ReadDent(db, parentId, name).CheckFailed?
            && (ReadDent(db, parentId, name).Found? ==>
                  var r := ReadDir(db, ReadDent(db, parentId, name).dir.id);
                  r.Found? && r.dir.parentId == parentId && r.dir.name == name)
            && (forall id :: !ReadDir(db, id).CheckFailed?)
  {
    RunKeepsInv(w, es);
    ReadsNeverFail(Run(w, es).db, Run(w, es).rows);
    DentReadsBack(Run(w, es).db, Run(w, es).rows, parentId, name);
  }

  lemma DentReadsBack(db: Db, rows: Rows, parentId: U64, name: Bytes)
    requires ById(db, rows) && ByName(db, rows)
    ensures !ReadDent(db, parentId, name).CheckFailed?
    ensures ReadDent(db, parentId, name).Found? ==>
              var r := ReadDir(db, ReadDent(db, parentId, name).dir.id);
              r.Found? && r.dir.parentId == parentId && r.dir.name == name
  {
    if NameKey(parentId, name) in db {
      DentLeadsToRow(db, rows, parentId, name);
      DentDecodes(db, parentId, name);
      ReadsRows(db, rows, db[NameKey(parentId, name)].id);
    }
  }

  lemma DentDecodes(db: Db, parentId: U64, name: Bytes)
    requires NameKey(parentId, name) in db && db[NameKey(parentId, name)].DEntDir?
    ensures var r := ReadDent(db, parentId, name); r.Found? && r.dir.id == db[NameKey(parentId, name)].id
  {
  }

  /** Likewise for every entry of every listing page. */
  lemma NoDanglingListings(w: World, es: seq<Event>, parentId: U64, start: Bytes, limit: nat, ents: seq<Protocol.DEnt>, i: nat)
    requires Inv(w) && IdGen.Distinct(Run(w, es).ids)
    requires Listing.IsPage(Run(w, es).db, parentId, start, limit, ents) && i < |ents|
    ensures var r := ReadDir(Run(w, es).db, ents[i].id);
            r.Found? && r.dir.parentId == parentId && r.dir.name == ents[i].name
    ensures Listing.DentsWellNamed(Run(w, es).db)
  {
    RunKeepsInv(w, es);
    var s := Run(w, es);
    assert Listing.ShowsDent(s.db, parentId, ents[i]);
    DentLeadsToRow(s.db, s.rows, parentId, ents[i].name);
    ReadsRows(s.db, s.rows, ents[i].id);
  }

  // ----------------------------------------------------------- dot-dot

  /** The ".." of a first page is the directory one step up; the root is its own parent. */
  lemma DotDotIsParent(db: Db, id: U64)
    requires ReadDir(db, id).Found?
    ensures var d := ReadDir(db, id).dir;
            && (id != ROOT_ID && ReadDir(db, d.parentId).Found? ==>
                  Listing.ParentEnt(db, d, id) == Some(Protocol.DEnt(Climb(db, id, 1), Listing.DOTDOT, Protocol.S_IFDIR)))
            && (id != ROOT_ID && !ReadDir(db, d.parentId).Found? ==> Listing.ParentEnt(db, d, id) == None)
            && (id == ROOT_ID ==> Listing.ParentEnt(db, d, id) == Some(Protocol.DEnt(ROOT_ID, Listing.DOTDOT, Protocol.S_IFDIR)))
  {
    assert Climb(db, id, 1) == Climb(db, ReadDir(db, id).dir.parentId, 0);
  }

  lemma RowHasDent(db: Db, rows: Rows, id: U64)
    requires ById(db, rows) && ByName(db, rows) && id in rows
    ensures ReadDent(db, rows[id].parentId, rows[id].name).Found?
  {
    DentLeadsToRow(db, rows, rows[id].parentId, rows[id].name);
    DentDecodes(db, rows[id].parentId, rows[id].name);
  }

  /**
    Dot-dot in mkdir runs. In every state, the first page of every readable directory
    has a ".."; its id is readable, is one step up the tree, and its directory has a
    dent of the listed directory's name; and no first page fails a CHECK.
   */
  lemma DotDotInRuns(w: World, es: seq<Event>, req: Listing.ListRequest)
    requires Inv(w) && IdGen.Distinct(Run(w, es).ids) && ReadDir(Run(w, es).db, req.id).Found?
    ensures var db := Run(w, es).db;
            var d := ReadDir(db, req.id).dir;
            var up := Listing.ParentEnt(db, d, req.id);
            && up.Some? && up.value.id == (if req.id == ROOT_ID then ROOT_ID else Climb(db, req.id, 1))
            && ReadDir(db, up.value.id).Found? && !Listing.ReadFails(db, req)
            && (req.id != ROOT_ID ==> ReadDent(db, up.value.id, d.name).Found?)
  {
    RunKeepsInv(w, es);
    var s := Run(w, es);
    var _ := TreeOfRows(s.db, s.rows, s.order, req.id);
    ReadsRows(s.db, s.rows, req.id);
    ReadsNeverFail(s.db, s.rows);
    DotDotIsParent(s.db, req.id);
    if req.id != ROOT_ID { RowHasDent(s.db, s.rows, req.id); }
  }

  // ---------------------------------------------------- names created twice

  /** What the database holds beside the four families. */
  ghost function Beside(db: Db): Db {
    map k | k in db && k.cf.DefaultCF? :: db[k]
  }

  /** The four families are the image of some table. */
  ghost predicate IsTable(db: Db) {
    exists rows :: Represents(db, rows, Beside(db))
  }

  ghost predicate NamesApart(rows: Rows) {
    forall i, j :: i in rows && j in rows && i != j ==> !SameName(rows[i], rows[j])
  }

  lemma RowHeld(db: Db, rows: Rows, id: U64)
    requires ById(db, rows) && ByName(db, rows) && NamesApart(rows) && id in rows
    ensures Holds(db, Entries(rows[id]))
  {
    var d := rows[id];
    DentLeadsToRow(db, rows, d.parentId, d.name);
  }

  lemma KeyHeld(db: Db, rows: Rows, k: Key)
    requires ById(db, rows) && ByName(db, rows) && k in db && !k.cf.DefaultCF?
    ensures InSomeRow(rows, k)
  {
    if IdFamily(k.cf) {
      var id := Decode64(k.bytes);
      assert k == IdKey(k.cf, id);
      assert k in Entries(rows[id]);
    } else {
      assert k in Entries(rows[db[k].id]);
    }
  }

  lemma BesideNoRow(rows: Rows, db: Db, k: Key)
    requires k in Beside(db)
    ensures !InSomeRow(rows, k)
  {
  }

  lemma ImageOfApartRows(db: Db, rows: Rows)
    requires ById(db, rows) && ByName(db, rows) && NamesApart(rows)
    ensures Represents(db, rows, Beside(db))
  {
    var other := Beside(db);
    assert Holds(db, other);
    forall k | k in db ensures k in other || InSomeRow(rows, k) { if k !in other { KeyHeld(db, rows, k); } }
    forall k | k in other ensures !InSomeRow(rows, k) { BesideNoRow(rows, db, k); }
    forall id | id in rows ensures rows[id].id == id && Holds(db, Entries(rows[id])) { RowHeld(db, rows, id); }
  }

  /** The dent names one row; the other row of that name is in no table's image. */
  lemma TwinNotNamed(db: Db, rows: Rows, i: U64, j: U64) returns (r: Dir, d: Dir)
    requires ById(db, rows) && ByName(db, rows) && i in rows && j in rows && i != j && SameName(rows[i], rows[j])
    ensures SameName(r, d) && r.id != d.id
    ensures Lookup(db, IdKey(InodeCF, r.id)) == Some(InodeDir(r.parentId, r.name, r.id, r.ctime))
    ensures Lookup(db, NameKey(d.parentId, d.name)) == Some(DEntDir(d.parentId, d.name, d.id))
  {
    DentLeadsToRow(db, rows, rows[i].parentId, rows[i].name);
    d := rows[db[NameKey(rows[i].parentId, rows[i].name)].id];
    r := if d.id == i then rows[j] else rows[i];
    assert Stored(db, r);
  }

  lemma NoImageOfTwins(db: Db, r: Dir, d: Dir)
    requires SameName(r, d) && r.id != d.id
    requires Lookup(db, IdKey(InodeCF, r.id)) == Some(InodeDir(r.parentId, r.name, r.id, r.ctime))
    requires Lookup(db, NameKey(d.parentId, d.name)) == Some(DEntDir(d.parentId, d.name, d.id))
    ensures !IsTable(db)
  {
    forall rows' ensures !Represents(db, rows', Beside(db)) { TwoInodesOneDent(db, rows', Beside(db), r, d); }
  }

  lemma NoImageOfSharedName(db: Db, rows: Rows)
    requires ById(db, rows) && ByName(db, rows) && !NamesApart(rows)
    ensures !IsTable(db)
  {
    var i, j :| i in rows && j in rows && i != j && SameName(rows[i], rows[j]);
    var r, d := TwinNotNamed(db, rows, i, j);
    NoImageOfTwins(db, r, d);
  }

  /** A mkdir run leaves the image of some table exactly when no (parent, name) was created twice. */
  lemma TableSurvivesIff(w: World, es: seq<Event>)
    requires Inv(w) && IdGen.Distinct(Run(w, es).ids)
    ensures IsTable(Run(w, es).db) <==> NamesApart(Run(w, es).rows)
  {
    RunKeepsInv(w, es);
    if NamesApart(Run(w, es).rows) {
      ImageOfApartRows(Run(w, es).db, Run(w, es).rows);
    } else {
      NoImageOfSharedName(Run(w, es).db, Run(w, es).rows);
    }
  }

  /** Two ops that create the same name side by side. */
  function SameNameRun(req: Request, a: U64, b: U64, now: I64): seq<Event> {
    [Begin(0, req), Begin(1, req)] + [Draw(0, a, now), Draw(1, b, now)] + [Finish(0, true), Finish(1, true)]
  }

  function BothOpen(req: Request, d: Option<Dir>, d': Option<Dir>, ids: seq<U64>): World {
    EMPTY.(open := map[0 := Pending(req, map[], map[], d), 1 := Pending(req, map[], map[], d')], ids := ids)
  }

  lemma BothBegin(req: Request)
    ensures Step(Step(EMPTY, Begin(0, req)), Begin(1, req)) == BothOpen(req, None, None, [])
  {
  }

  lemma BothDraw(req: Request, p: Dir, a: U64, b: U64, now: I64)
    requires Decide(map[], req) == Make(p)
    ensures var d, d' := NewDir(p, req, a, now), NewDir(p, req, b, now);
            Step(Step(BothOpen(req, None, None, []), Draw(0, a, now)), Draw(1, b, now)) == BothOpen(req, Some(d), Some(d'), [a, b])
  {
    var d := NewDir(p, req, a, now);
    assert Step(BothOpen(req, None, None, []), Draw(0, a, now)) == BothOpen(req, Some(d), None, [a]);
  }

  lemma BothFinish(req: Request, d: Dir, d': Dir, ids: seq<U64>)
    ensures var w := Step(Step(BothOpen(req, Some(d), Some(d'), ids), Finish(0, true)), Finish(1, true));
            w.order == [d.id, d'.id] && w.rows == map[d.id := d, d'.id := d'] && w.ids == ids
  {
  }

  lemma SameNameRows(req: Request, a: U64, b: U64, now: I64)
    requires Decide(map[], req).Make? && a != b
    ensures var w, p := Run(EMPTY, SameNameRun(req, a, b, now)), Decide(map[], req).parent;
            && w.order == [a, b] && w.ids == [a, b]
            && w.rows == map[a := NewDir(p, req, a, now), b := NewDir(p, req, b, now)]
  {
    var p := Decide(map[], req).parent;
    RunConcat(EMPTY, [Begin(0, req), Begin(1, req)] + [Draw(0, a, now), Draw(1, b, now)], [Finish(0, true), Finish(1, true)]);
    RunConcat(EMPTY, [Begin(0, req), Begin(1, req)], [Draw(0, a, now), Draw(1, b, now)]);
    RunOfTwo(EMPTY, Begin(0, req), Begin(1, req));
    BothBegin(req);
    RunOfTwo(BothOpen(req, None, None, []), Draw(0, a, now), Draw(1, b, now));
    BothDraw(req, p, a, b, now);
    var d, d' := NewDir(p, req, a, now), NewDir(p, req, b, now);
    RunOfTwo(BothOpen(req, Some(d), Some(d'), [a, b]), Finish(0, true), Finish(1, true));
    BothFinish(req, d, d', [a, b]);
  }

  /** Such a run exists for every name the root accepts: it commits two rows and leaves no table. */
  lemma SameNameLeavesNoTable(req: Request, a: U64, b: U64, now: I64)
    requires Decide(map[], req).Make? && a != b
    ensures var w := Run(EMPTY, SameNameRun(req, a, b, now));
            w.order == [a, b] && !IsTable(w.db)
  {
    SameNameRows(req, a, b, now);
    TableSurvivesIff(EMPTY, SameNameRun(req, a, b, now));
    var rows := Run(EMPTY, SameNameRun(req, a, b, now)).rows;
    assert a in rows && b in rows && SameName(rows[a], rows[b]);
  }

  lemma {:induction false} RunConcat(w: World, xs: seq<Event>, ys: seq<Event>)
    ensures Run(w, xs + ys) == Run(Run(w, xs), ys)
    decreases |ys|
  {
    if |ys| == 0 {
      assert xs + ys == xs;
    } else {
      RunConcat(w, xs, ys[..|ys| - 1]);
      assert (xs + ys)[..|xs + ys| - 1] == xs + ys[..|ys| - 1];
    }
  }

  lemma RunOfTwo(w: World, a: Event, b: Event)
    ensures Run(w, [a, b]) == Step(Step(w, a), b)
  {
    assert [a, b][..1] == [a] && [a][..0] == [];
    assert Run(w, [a]) == Step(Run(w, []), a);
  }

  // --------------------------------------------------- with the ID generator

  /**
    The tree invariant with the ids of a generator from its construction on, over an
    empty store. In the low placement the generator's ids have to be distinct; the
    root is the invented one unless some Next comes before anything touched the word.
   */
  lemma TreeWithGenerator(c: IdGen.Config, ges: seq<IdGen.Event>, es: seq<Event>, id: U64) returns (n: nat)
    requires c.node == 0 && c.clock == 0
    requires c.layout.TimestampHigh? || IdGen.AheadAtNexts(c, IdGen.START, ges)
    requires Run(EMPTY, es).ids == IdGen.Run(c, IdGen.START, ges).returned
    requires ReadDir(Run(EMPTY, es).db, id).Found?
    ensures ReadDir(Run(EMPTY, es).db, ReadDir(Run(EMPTY, es).db, id).dir.parentId).Found?
    ensures n <= |Run(EMPTY, es).order| && Climb(Run(EMPTY, es).db, id, n) == ROOT_ID
    ensures !IdGen.NextFirst(ges) ==> ReadDir(Run(EMPTY, es).db, ROOT_ID) == Found(ROOT_DIR)
  {
    IdGen.GeneratedIds(c, ges);
    n := TreeInvariant(EMPTY, es, id);
  }

  /**
    With the generator as constructed the first id drawn is the root's: the first mkdir
    then becomes the root directory, with the requested name and parent and no acl.
   */
  lemma EarlyMkdirBecomesRoot(c: IdGen.Config, req: Request, now: I64)
    requires c.node == 0 && c.clock == 0 && Decide(map[], req).Make?
    ensures IdGen.Run(c, IdGen.START, [IdGen.Update(0), IdGen.Next]).returned == [ROOT_ID]
    ensures var w := Run(EMPTY, [Begin(0, req), Draw(0, ROOT_ID, now), Finish(0, true)]);
            ReadDir(w.db, ROOT_ID) == Found(Dir(req.parentId, req.name, ROOT_ID, NO_ACL, now, now, now))
  {
    FirstIdDrawn(c);
    var d := NewDir(Decide(map[], req).parent, req, ROOT_ID, now);
    OneMkdir(req, d, now);
    CreatedReadsBack(d);
  }

  lemma CreatedReadsBack(d: Dir)
    ensures ReadDir(AfterCreate(map[], d), d.id) == Found(d.(acl := NO_ACL))
  {
    CreateAddsEntries(map[], d);
    ReadStored(map[] + Entries(d), d);
  }

  lemma OneMkdir(req: Request, d: Dir, now: I64)
    requires Decide(map[], req).Make? && d == NewDir(Decide(map[], req).parent, req, d.id, now)
    ensures Run(EMPTY, [Begin(0, req), Draw(0, d.id, now), Finish(0, true)]).db == AfterCreate(map[], d)
  {
    var a, b, c := Begin(0, req), Draw(0, d.id, now), Finish(0, true);
    RunOfThree(EMPTY, a, b, c);
    var w := Step(EMPTY, a);
    assert w.open == map[0 := Pending(req, map[], map[], None)];
    assert Step(w, b).open == map[0 := Pending(req, map[], map[], Some(d))];
  }

  lemma RunOfThree(w: World, a: Event, b: Event, c: Event)
    ensures Run(w, [a, b, c]) == Step(Step(Step(w, a), b), c)
  {
    RunOfTwo(w, a, b);
    assert [a, b, c][..2] == [a, b];
  }

  lemma FirstIdDrawn(c: IdGen.Config)
    requires c.node == 0 && c.clock == 0
    ensures IdGen.Run(c, IdGen.START, [IdGen.Update(0), IdGen.Next]).returned == [ROOT_ID]
  {
    var es := [IdGen.Update(0), IdGen.Next];
    assert es[..1][..0] == [];
    IdGen.UpdateOfZero(c, 0);
    assert IdGen.Run(c, IdGen.START, es[..1]) == IdGen.START;
    IdGen.FirstTouch(c, IdGen.START, [], IdGen.Next);
  }
}
