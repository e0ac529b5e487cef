/**
  Listing a directory: KVDEntView::List over the ordered dent keys, and ListDirOp
  on top of it.
 */
module Listing {
  import opened ByteStrings
  import opened KvTypes
  import opened TxnStore
  import opened Serde
  import opened DirTable
  import opened Protocol

  const S_IRUSR: bv64 := 0x100
  const DEFAULT_LIMIT: nat := 100

  /** The exclusive end of every listing range. */
  const END: Bytes := [0xFF]

  // ------------------------------------------------------ abstract listing

  /** The names the dent family holds under a parent. */
  ghost function Names(db: Db, parentId: U64): set<Bytes> {
    set k | k in db && k.cf == DEntCF && |k.bytes| >= 8 && k.bytes == DentKey(parentId, k.bytes[8..]) :: k.bytes[8..]
  }

  /** The names a listing starting at `start` can return: start included, END and beyond not. */
  ghost function Listable(names: set<Bytes>, start: Bytes): set<Bytes> {
    set n | n in names && !Less(n, start) && Less(n, END)
  }

  lemma NamesMember(db: Db, parentId: U64, name: Bytes)
    ensures name in Names(db, parentId) <==> NameKey(parentId, name) in db
  {
  }

  /** Keys of one parent's range, turned into names, keep order and membership. */
  lemma KeysToNames(db: Db, parentId: U64, start: Bytes, keys: seq<Bytes>, names: seq<Bytes>, limit: nat)
    requires FirstOf(keys, RangeKeys(db, DEntCF, DentKey(parentId, start), DentKey(parentId, END)), limit)
    requires |names| == |keys| && forall i :: 0 <= i < |keys| ==> |keys[i]| >= 8 && names[i] == keys[i][8..]
    requires forall i :: 0 <= i < |keys| ==> keys[i] == DentKey(parentId, names[i])
    ensures FirstOf(names, Listable(Names(db, parentId), start), limit)
  {
    var range := RangeKeys(db, DEntCF, DentKey(parentId, start), DentKey(parentId, END));
    var able := Listable(Names(db, parentId), start);
    forall i, j | 0 <= i < j < |names| ensures Less(names[i], names[j]) {
      DentKeyOrder(parentId, names[i], parentId, names[j]);
      assert Less(keys[i], keys[j]);
    }
    forall n ensures n in able <==> DentKey(parentId, n) in range {
      NamesMember(db, parentId, n);
      DentKeyOrder(parentId, n, parentId, start);
      DentKeyOrder(parentId, n, parentId, END);
    }
    forall n | n in names ensures n in able {
      var i :| 0 <= i < |names| && names[i] == n;
      assert keys[i] in range;
    }
    forall x | x in able && x !in names
      ensures |names| == limit && forall n :: n in names ==> Less(n, x)
    {
      var k := DentKey(parentId, x);
      assert k !in keys by {
        forall i | 0 <= i < |keys| ensures keys[i] != k { DentKeyInjective(parentId, x, parentId, names[i]); }
      }
      forall n | n in names ensures Less(n, x) {
        var i :| 0 <= i < |names| && names[i] == n;
        assert Less(keys[i], k);
        DentKeyOrder(parentId, n, parentId, x);
      }
    }
  }

  lemma RangeKeysArePrefixed(db: Db, parentId: U64, start: Bytes, k: Bytes)
    requires k in RangeKeys(db, DEntCF, DentKey(parentId, start), DentKey(parentId, END))
    ensures |k| >= 8 && k == DentKey(parentId, k[8..])
  {
    if Less(DentKey(parentId, END), k) {
      LessTransitive(k, DentKey(parentId, END), k);
      LessIrreflexive(k);
    }
    ParentInterval(parentId, start, END, k);
  }

  // ------------------------------------------------------------- KVDEntView

  class KVDEntView {
    const txn: Txn

    constructor (txn: Txn)
      ensures this.txn == txn
    {
      this.txn := txn;
    }

    /**
      The first `limit` entries of this parent at or after start_after, in name
      order, and no other parent's entry. None is a value that fails to decode.
     */
    method List(parentId: U64, startAfter: Bytes, limit: nat) returns (r: Option<seq<Row>>)
      ensures exists names :: FirstOf(names, Listable(Names(txn.snapshot, parentId), startAfter), limit) &&
                              Decoded(txn.snapshot, parentId, names, r)
    {
      var from := BuildDentKey(parentId, startAfter);
      var to := BuildDentKey(parentId, END);
      var values := txn.GetRange(DEntCF, from, to, limit);
      ghost var keys :| FirstOf(keys, RangeKeys(txn.snapshot, DEntCF, from, to), limit) &&
                        AreValuesAt(txn.snapshot, DEntCF, keys, values);
      forall i | 0 <= i < |keys| ensures |keys[i]| >= 8 && keys[i] == DentKey(parentId, keys[i][8..]) {
        RangeKeysArePrefixed(txn.snapshot, parentId, startAfter, keys[i]);
      }
      ghost var names := seq(|keys|, i requires 0 <= i < |keys| => keys[i][8..]);
      KeysToNames(txn.snapshot, parentId, startAfter, keys, names, limit);
      assert forall i :: 0 <= i < |keys| ==> NameKey(parentId, names[i]) == Key(DEntCF, keys[i]);
      var rows := [];
      for n := 0 to |values|
        invariant |rows| == n
        invariant forall i :: 0 <= i < n ==> Some(rows[i]) == DeDent(values[i])
      {
        var row := DeDent(values[n]);
        if row.None? {
          assert DeDent(txn.snapshot[NameKey(parentId, names[n])]).None?;
          assert Decoded(txn.snapshot, parentId, names, None);
          return None;
        }
        rows := rows + [row.value];
      }
      r := Some(rows);
      assert Decoded(txn.snapshot, parentId, names, r);
    }
  }

  /** r is the dents of these names decoded, or None when one of them does not decode. */
  predicate Decoded(db: Db, parentId: U64, names: seq<Bytes>, r: Option<seq<Row>>) {
    && (forall i :: 0 <= i < |names| ==> NameKey(parentId, names[i]) in db)
    && match r
       case None => exists i :: 0 <= i < |names| && DeDent(db[NameKey(parentId, names[i])]).None?
       case Some(rows) =>
         && |rows| == |names|
         && forall i :: 0 <= i < |names| ==> Some(rows[i]) == DeDent(db[NameKey(parentId, names[i])])
  }

  /** Every dent is stored under the key of the (parent, name) written in it. */
  ghost predicate DentsWellNamed(db: Db) {
    forall k :: k in db && k.cf == DEntCF ==>
      (db[k].DEntDir? || db[k].DEntLink?) && k.bytes == DentKey(db[k].parentId, db[k].name)
  }

  // -------------------------------------------------------------- ListDirOp

  datatype ListRequest = ListRequest(id: U64, startAfter: Bytes, limit: int, uid: int, gid: int)

  datatype ListError = ParentNotFound | PermissionDenied | CheckFailure

  datatype ListResponse =
    | Refused(error: ListError)
    | Listed(self: Option<DEnt>, parent: Option<DEnt>, ents: seq<DEnt>, hasMore: bool)

  function EffectiveLimit(limit: int): nat {
    if limit > 0 then limit else DEFAULT_LIMIT
  }

  /** The response entry for a decoded dent. */
  function ToEnt(row: Row): DEnt
    requires !row.FileRow?
  {
    if row.DirRow? then DEnt(row.dir.id, row.dir.name, S_IFDIR) else DEnt(row.link.id, row.link.name, S_IFREG)
  }

  ghost function EntNames(ents: seq<DEnt>): (names: seq<Bytes>)
    ensures |names| == |ents| && forall i :: 0 <= i < |ents| ==> names[i] == ents[i].name
  {
    seq(|ents|, i requires 0 <= i < |ents| => ents[i].name)
  }

  /** The stored dent of that name is what the entry shows. */
  ghost predicate ShowsDent(db: Db, parentId: U64, e: DEnt) {
    var v := Lookup(db, NameKey(parentId, e.name));
    (v == Some(DEntDir(parentId, e.name, e.id)) && e.kind == S_IFDIR) ||
    (v == Some(DEntLink(parentId, e.name, e.id)) && e.kind == S_IFREG)
  }

  /** ents is the page a listing of this directory returns. */
  ghost predicate IsPage(db: Db, parentId: U64, start: Bytes, limit: nat, ents: seq<DEnt>) {
    && FirstOf(EntNames(ents), Listable(Names(db, parentId), start), limit)
    && forall i :: 0 <= i < |ents| ==> ShowsDent(db, parentId, ents[i])
  }

  predicate Allowed(db: Db, id: U64, uid: int, gid: int) {
    var r := ReadDir(db, id);
    r.Found? && CheckPermission(r.dir.acl, uid, gid, S_IRUSR)
  }

  predicate MayList(db: Db, req: ListRequest) { Allowed(db, req.id, req.uid, req.gid) }

  /** Any user may list the root while it is not stored; below it only uid 0 may. */
  lemma WhoMayList(db: Db, id: U64, uid: int, gid: int)
    ensures Allowed(db, id, uid, gid) <==>
              (DirStored(db, id) && uid == 0) || (IdKey(InodeCF, id) !in db && id == ROOT_ID)
  {
    ReadOutcome(db, id);
    if ReadDir(db, id).Found? { ListBit(ReadDir(db, id).dir.acl, uid, gid); }
  }

  lemma DecodedDent(db: Db, parentId: U64, name: Bytes)
    requires DentsWellNamed(db) && NameKey(parentId, name) in db
    ensures var row := DeDent(db[NameKey(parentId, name)]);
            row.Some? && !row.value.FileRow? && ToEnt(row.value).name == name && ShowsDent(db, parentId, ToEnt(row.value))
  {
    var v := db[NameKey(parentId, name)];
    DentKeyInjective(parentId, name, v.parentId, v.name);
  }

  const DOT: Bytes := ['.' as int]
  const DOTDOT: Bytes := ['.' as int, '.' as int]

  /** The ".." entry of a first page: absent when the grandparent is not stored. */
  function ParentEnt(db: Db, d: Dir, id: U64): Option<DEnt> {
    if id == ROOT_ID then Some(DEnt(id, DOTDOT, S_IFDIR))
    else if ReadDir(db, d.parentId).Found? then Some(DEnt(d.parentId, DOTDOT, S_IFDIR))
    else None
  }

  /** A read on the way to the listing fails a CHECK. */
  predicate ReadFails(db: Db, req: ListRequest) {
    var r := ReadDir(db, req.id);
    r.CheckFailed? ||
    (MayList(db, req) && req.startAfter == [] && req.id != ROOT_ID && ReadDir(db, r.dir.parentId).CheckFailed?)
  }

  method ToEnts(rows: seq<Row>) returns (ents: seq<DEnt>)
    requires forall row :: row in rows ==> !row.FileRow?
    ensures |ents| == |rows| && forall i :: 0 <= i < |rows| ==> ents[i] == ToEnt(rows[i])
  {
    ents := [];
    for n := 0 to |rows|
      invariant |ents| == n
      invariant forall i :: 0 <= i < n ==> ents[i] == ToEnt(rows[i])
    {
      ents := ents + [ToEnt(rows[n])];
    }
  }

  /** On well-named dents the decoded rows of a listing are its page. */
  lemma RowsArePage(db: Db, parentId: U64, start: Bytes, limit: nat, names: seq<Bytes>, rows: seq<Row>, ents: seq<DEnt>)
    requires DentsWellNamed(db)
    requires FirstOf(names, Listable(Names(db, parentId), start), limit)
    requires |names| == |rows| == |ents|
    requires forall i :: 0 <= i < |names| ==> NameKey(parentId, names[i]) in db && Some(rows[i]) == DeDent(db[NameKey(parentId, names[i])])
    requires forall i :: 0 <= i < |rows| ==> !rows[i].FileRow? && ents[i] == ToEnt(rows[i])
    ensures IsPage(db, parentId, start, limit, ents)
  {
    forall i | 0 <= i < |ents| ensures ents[i].name == names[i] && ShowsDent(db, parentId, ents[i]) {
      DecodedDent(db, parentId, names[i]);
    }
    assert EntNames(ents) == names;
  }

  /** The first page's "." and ".." entries; ok is false when reading the grandparent fails a CHECK. */
  method DotEnts(table: KVDirTable, req: ListRequest, d: Dir) returns (ok: bool, self: Option<DEnt>, parent: Option<DEnt>)
    modifies table.txn`readSet
    ensures ok <==> !(req.startAfter == [] && req.id != ROOT_ID && ReadDir(table.txn.snapshot, d.parentId).CheckFailed?)
    ensures self == if req.startAfter == [] then Some(DEnt(req.id, DOT, S_IFDIR)) else None
    ensures ok ==> parent == if req.startAfter == [] then ParentEnt(table.txn.snapshot, d, req.id) else None
  {
    ok, self, parent := true, None, None;
    if req.startAfter == [] {
      self := Some(DEnt(req.id, DOT, S_IFDIR));
      if req.id == ROOT_ID {
        parent := Some(DEnt(req.id, DOTDOT, S_IFDIR));
      } else {
        var grand := table.Read(d.parentId);
        ok := !grand.CheckFailed?;
        if grand.Found? {
          parent := Some(DEnt(d.parentId, DOTDOT, S_IFDIR));
        }
      }
    }
  }

  /** The listed entries; None when a stored dent does not decode. */
  method PageEnts(txn: Txn, req: ListRequest) returns (ents: Option<seq<DEnt>>)
    ensures DentsWellNamed(txn.snapshot) ==>
              ents.Some? && IsPage(txn.snapshot, req.id, req.startAfter, EffectiveLimit(req.limit), ents.value)
  {
    var view := new KVDEntView(txn);
    var rows := view.List(req.id, req.startAfter, EffectiveLimit(req.limit));
    ghost var names :| FirstOf(names, Listable(Names(txn.snapshot, req.id), req.startAfter), EffectiveLimit(req.limit)) &&
                       Decoded(txn.snapshot, req.id, names, rows);
    if rows.None? {
      if DentsWellNamed(txn.snapshot) {
        forall i | 0 <= i < |names| ensures DeDent(txn.snapshot[NameKey(req.id, names[i])]).Some? {
          DecodedDent(txn.snapshot, req.id, names[i]);
        }
      }
      return None;
    }
    var es := ToEnts(rows.value);
    if DentsWellNamed(txn.snapshot) {
      RowsArePage(txn.snapshot, req.id, req.startAfter, EffectiveLimit(req.limit), names, rows.value, es);
    }
    return Some(es);
  }

  method ListDir(store: KvStore, req: ListRequest) returns (resp: ListResponse)
    modifies store`version
    ensures resp == Refused(ParentNotFound) <==> ReadDir(store.db, req.id).Missing?
    ensures resp == Refused(PermissionDenied) <==> ReadDir(store.db, req.id).Found? && !MayList(store.db, req)
    ensures resp.Listed? ==>
              && MayList(store.db, req)
              && resp.hasMore == (|resp.ents| == req.limit)
              && resp.self == (if req.startAfter == [] then Some(DEnt(req.id, DOT, S_IFDIR)) else None)
              && resp.parent == (if req.startAfter == [] then ParentEnt(store.db, ReadDir(store.db, req.id).dir, req.id) else None)
    ensures DentsWellNamed(store.db) ==>
              && (resp == Refused(CheckFailure) <==> ReadFails(store.db, req))
              && (resp.Listed? <==> MayList(store.db, req) && !ReadFails(store.db, req))
    ensures DentsWellNamed(store.db) && resp.Listed? ==>
              IsPage(store.db, req.id, req.startAfter, EffectiveLimit(req.limit), resp.ents)
  {
    var txn := store.StartTxn();
    var table := new KVDirTable(txn);
    var dir := table.Read(req.id);
    if dir.CheckFailed? {
      return Refused(CheckFailure);
    }
    if dir.Missing? {
      return Refused(ParentNotFound);
    }
    if !CheckPermission(dir.dir.acl, req.uid, req.gid, S_IRUSR) {
      return Refused(PermissionDenied);
    }
    var ok, self, parent := DotEnts(table, req, dir.dir);
    if !ok {
      return Refused(CheckFailure);
    }
    var ents := PageEnts(txn, req);
    if ents.None? {
      return Refused(CheckFailure);
    }
    resp := Listed(self, parent, ents.value, |ents.value| == req.limit);
  }
}
