/**
  KVDirTable: the directory table kept as four column families (Inode, MTime,
  ATime, DEnt), maintained by incremental writes, and read by id or by
  (parent, name). The module ends with what one Write does to all four.
 */
module DirTable {
  import opened ByteStrings
  import opened KvTypes
  import opened TxnStore
  import opened Serde

  const ROOT_ID: U64 := 1
  const ALLPERMS: bv64 := 0xFFF

  /** What Read(kRootInodeID) invents while no root inode is stored. */
  const ROOT_DIR: Dir := Dir(ROOT_ID, [], ROOT_ID, Acl(0, 0, ALLPERMS), 0, 0, 0)

  /** CheckPermission: perm is given in "other" position and shifted to the class that applies. */
  predicate CheckPermission(acl: Acl, uid: int, gid: int, perm: bv64) {
    var needed := if uid == 0 then 0 else if uid == acl.uid then perm << 6 else if gid == acl.gid then perm << 3 else perm;
    acl.perm & needed == needed
  }

  /** Creating asks for S_IWOTH: uid 0 always may, otherwise the write bit of the class that applies decides. */
  lemma CreateBit(acl: Acl, uid: int, gid: int)
    ensures CheckPermission(acl, uid, gid, 0x2) <==> uid == 0 || HasBit(acl.perm, ClassBit(acl, uid, gid, 0x80, 0x10, 0x2))
  {
    Shifts();
    if uid == 0 { UidZeroPasses(acl, gid, 0x2); } else { ClassDecides(acl, uid, gid, 0x2, 0x80, 0x10); }
  }

  /**
    Listing asks for S_IRUSR, which is not in "other" position: others need the owner's
    read bit, the group the set-user-ID bit, and the owner a bit no mode has.
   */
  lemma ListBit(acl: Acl, uid: int, gid: int)
    ensures CheckPermission(acl, uid, gid, 0x100) <==> uid == 0 || HasBit(acl.perm, ClassBit(acl, uid, gid, 0x4000, 0x800, 0x100))
  {
    Shifts();
    if uid == 0 { UidZeroPasses(acl, gid, 0x100); } else { ClassDecides(acl, uid, gid, 0x100, 0x4000, 0x800); }
  }

  lemma UidZeroPasses(acl: Acl, gid: int, perm: bv64)
    ensures CheckPermission(acl, 0, gid, perm)
  {
    NothingNeeded(acl.perm);
  }

  predicate HasBit(perm: bv64, bit: bv64) { perm & bit != 0 }

  predicate IsOneBit(bit: bv64) {
    bit == 0x2 || bit == 0x10 || bit == 0x80 || bit == 0x100 || bit == 0x800 || bit == 0x4000
  }

  lemma ClassDecides(acl: Acl, uid: int, gid: int, perm: bv64, owner: bv64, group: bv64)
    requires uid != 0 && owner == perm << 6 && group == perm << 3 && IsOneBit(owner) && IsOneBit(group) && IsOneBit(perm)
    ensures CheckPermission(acl, uid, gid, perm) <==> HasBit(acl.perm, ClassBit(acl, uid, gid, owner, group, perm))
  {
    OneBit(acl.perm, ClassBit(acl, uid, gid, owner, group, perm));
  }

  /** One of three bits, by the class the user is in. */
  function ClassBit(acl: Acl, uid: int, gid: int, owner: bv64, group: bv64, other: bv64): bv64 {
    if uid == acl.uid then owner else if gid == acl.gid then group else other
  }

  lemma Shifts()
    ensures (0x2 as bv64) << 6 == 0x80 && (0x2 as bv64) << 3 == 0x10
    ensures (0x100 as bv64) << 6 == 0x4000 && (0x100 as bv64) << 3 == 0x800
  {
  }

  lemma NothingNeeded(perm: bv64)
    ensures perm & 0 == 0
  {
  }

  lemma OneBit(perm: bv64, bit: bv64)
    requires IsOneBit(bit)
    ensures perm & bit == bit <==> HasBit(perm, bit)
  {
  }

  datatype ReadResult = Found(dir: Dir) | Missing | CheckFailed

  function IdKey(cf: CF, id: U64): Key { Key(cf, Encode64(id)) }

  function NameKey(parentId: U64, name: Bytes): Key { Key(DEntCF, DentKey(parentId, name)) }

  // ---------------------------------------------------------------- reads

  /** Read by id. */
  function ReadDir(db: Db, id: U64): ReadResult {
    match Lookup(db, IdKey(InodeCF, id))
    case None => if id == ROOT_ID then Found(ROOT_DIR) else Missing
    case Some(v) =>
      match DeInode(v)
      case None => CheckFailed
      case Some(row) => if row.DirRow? then ReadTimes(db, id, row.dir) else Missing
  }

  function ReadTimes(db: Db, id: U64, d: Dir): ReadResult {
    var m, a := ReadTime(db, MTimeCF, id), ReadTime(db, ATimeCF, id);
    if m.Some? && a.Some? then Found(d.(mtime := m.value, atime := a.value)) else CheckFailed
  }

  function ReadTime(db: Db, cf: CF, id: U64): Option<I64> {
    match Lookup(db, IdKey(cf, id))
    case None => None
    case Some(v) => DeTime(v)
  }

  /** Read by (parent, name). */
  function ReadDent(db: Db, parentId: U64, name: Bytes): ReadResult {
    match Lookup(db, NameKey(parentId, name))
    case None => Missing
    case Some(v) =>
      match DeDent(v)
      case None => CheckFailed
      case Some(row) => if row.DirRow? then Found(row.dir) else Missing
  }

  /** A stored time is eight bytes. */
  predicate TimeStored(db: Db, cf: CF, id: U64) {
    var v := Lookup(db, IdKey(cf, id));
    v.Some? && v.value.Raw? && |v.value.bytes| == 8
  }

  /** A stored directory whose two times can be read. */
  predicate DirStored(db: Db, id: U64) {
    var v := Lookup(db, IdKey(InodeCF, id));
    v.Some? && v.value.InodeDir? && TimeStored(db, MTimeCF, id) && TimeStored(db, ATimeCF, id)
  }

  /** Reading by id, on the stored values: what is found, what is missing, and when a CHECK fails. */
  lemma ReadOutcome(db: Db, id: U64)
    ensures var v, r := Lookup(db, IdKey(InodeCF, id)), ReadDir(db, id);
            && (r.Found? <==> DirStored(db, id) || (v.None? && id == 1))
            && (r.Missing? <==> (v.None? && id != 1) || (v.Some? && v.value.InodeFile?))
            && (DirStored(db, id) ==>
                  && r.dir.parentId == v.value.parentId && r.dir.name == v.value.name && r.dir.id == v.value.id
                  && r.dir.ctime == v.value.ctime && r.dir.acl == Acl(0, 0, 0)
                  && TimeValue(r.dir.mtime) == db[IdKey(MTimeCF, id)] && TimeValue(r.dir.atime) == db[IdKey(ATimeCF, id)])
            && (v.None? && id == 1 ==> r.dir == Dir(1, [], 1, Acl(0, 0, 0xFFF), 0, 0, 0))
  {
  }

  /** Reading by name, on the stored value: a hard link reads as nothing, and only another kind of value fails the CHECK. */
  lemma ReadByNameOutcome(db: Db, parentId: U64, name: Bytes)
    ensures var v, r := Lookup(db, NameKey(parentId, name)), ReadDent(db, parentId, name);
            && (r.Found? <==> v.Some? && v.value.DEntDir?)
            && (r.Missing? <==> v.None? || v.value.DEntLink?)
            && (r.Found? ==> r.dir.parentId == v.value.parentId && r.dir.name == v.value.name && r.dir.id == v.value.id)
  {
  }

  /** The keys a read by id looks at. */
  function KeysRead(db: Db, id: U64): set<Key> {
    var inode := Lookup(db, IdKey(InodeCF, id));
    if inode.None? || DeInode(inode.value).None? || !DeInode(inode.value).value.DirRow? then {IdKey(InodeCF, id)}
    else if ReadTime(db, MTimeCF, id).None? then {IdKey(InodeCF, id), IdKey(MTimeCF, id)}
    else {IdKey(InodeCF, id), IdKey(MTimeCF, id), IdKey(ATimeCF, id)}
  }

  /** Its result depends on nothing but those keys, so tracking them is enough. */
  lemma ReadDependsOnKeysRead(db: Db, db': Db, id: U64)
    requires forall k :: k in KeysRead(db, id) ==> Lookup(db', k) == Lookup(db, k)
    ensures ReadDir(db', id) == ReadDir(db, id) && KeysRead(db', id) == KeysRead(db, id)
  {
  }

  // --------------------------------------------------------------- writes

  function AsRow(d: Option<Dir>): Option<Row> {
    match d
    case None => None
    case Some(dir) => Some(DirRow(dir))
  }

  /** Write(orig, mod) on a write set: the four families in order. */
  function DirWrite(ws: WriteSet, orig: Option<Dir>, mod: Option<Dir>): WriteSet {
    var o, m := AsRow(orig), AsRow(mod);
    AfterWrite(AfterWrite(AfterWrite(AfterWrite(ws, InodeSerde, o, m), MTimeSerde, o, m), ATimeSerde, o, m), DEntSerde, o, m)
  }

  class KVDirTable {
    const txn: Txn

    constructor (txn: Txn)
      ensures this.txn == txn
    {
      this.txn := txn;
    }

    method Read(id: U64) returns (r: ReadResult)
      modifies txn`readSet
      ensures r == ReadDir(txn.snapshot, id)
      ensures txn.readSet.Keys == old(txn.readSet.Keys) + KeysRead(txn.snapshot, id)
    {
      var inode := txn.Get(IdKey(InodeCF, id), false);
      if inode.None? {
        return if id == ROOT_ID then Found(ROOT_DIR) else Missing;
      }
      var row := DeInode(inode.value);
      if row.None? {
        return CheckFailed;
      }
      if !row.value.DirRow? {
        return Missing;
      }
      var dir := row.value.dir;
      var mtime := txn.Get(IdKey(MTimeCF, id), false);
      if mtime.None? || DeTime(mtime.value).None? {
        return CheckFailed;
      }
      dir := dir.(mtime := DeTime(mtime.value).value);
      var atime := txn.Get(IdKey(ATimeCF, id), false);
      if atime.None? || DeTime(atime.value).None? {
        return CheckFailed;
      }
      dir := dir.(atime := DeTime(atime.value).value);
      return Found(dir);
    }

    method ReadByName(parentId: U64, name: Bytes) returns (r: ReadResult)
      modifies txn`readSet
      ensures r == ReadDent(txn.snapshot, parentId, name)
      ensures txn.readSet.Keys == old(txn.readSet.Keys) + {NameKey(parentId, name)}
    {
      var dent := txn.Get(NameKey(parentId, name), false);
      if dent.None? {
        return Missing;
      }
      var row := DeDent(dent.value);
      if row.None? {
        return CheckFailed;
      }
      return if row.value.DirRow? then Found(row.value.dir) else Missing;
    }

    method Write(orig: Option<Dir>, mod: Option<Dir>)
      modifies txn`writeSet
      ensures txn.writeSet == DirWrite(old(txn.writeSet), orig, mod)
    {
      Serde.Write(InodeSerde, txn, AsRow(orig), AsRow(mod));
      Serde.Write(MTimeSerde, txn, AsRow(orig), AsRow(mod));
      Serde.Write(ATimeSerde, txn, AsRow(orig), AsRow(mod));
      Serde.Write(DEntSerde, txn, AsRow(orig), AsRow(mod));
    }
  }

  // ------------------------------------------------------ the four indexes

  /** The four entries of one row. */
  function Entries(d: Dir): Db {
    map[IdKey(InodeCF, d.id) := InodeDir(d.parentId, d.name, d.id, d.ctime),
        IdKey(MTimeCF, d.id) := TimeValue(d.mtime),
        IdKey(ATimeCF, d.id) := TimeValue(d.atime),
        NameKey(d.parentId, d.name) := DEntDir(d.parentId, d.name, d.id)]
  }

  function EntriesOf(d: Option<Dir>): Db {
    if d.Some? then Entries(d.value) else map[]
  }

  ghost predicate Holds(db: Db, part: Db) {
    forall k :: k in part ==> Lookup(db, k) == Some(part[k])
  }

  /** What one family's write leaves at key k. */
  function WrittenAt(was: Option<Value>, c: Codec, orig: Option<Dir>, mod: Option<Dir>, k: Key): Option<Value> {
    if mod.Some? && k == Key(Family(c), SerKey(c, DirRow(mod.value))) then Some(SerVal(c, DirRow(mod.value)))
    else if orig.Some? && k == Key(Family(c), SerKey(c, DirRow(orig.value))) then None
    else was
  }

  /** A write set's entry at k: None when k is not in it. */
  function At(ws: WriteSet, k: Key): Option<Option<Value>> {
    if k in ws then Some(ws[k]) else None
  }

  /** Each encoder writes its own family and reads nothing from the write set. */
  lemma EncoderIsLocal(ws: WriteSet, ws': WriteSet, c: Codec, orig: Option<Dir>, mod: Option<Dir>, k: Key)
    requires At(ws, k) == At(ws', k)
    ensures k.cf != Family(c) ==> At(AfterWrite(ws, c, AsRow(orig), AsRow(mod)), k) == At(ws, k)
    ensures At(AfterWrite(ws, c, AsRow(orig), AsRow(mod)), k) == At(AfterWrite(ws', c, AsRow(orig), AsRow(mod)), k)
  {
  }

  /** In a given family Write does what that family's encoder does. */
  lemma WriteByFamily(ws: WriteSet, c: Codec, orig: Option<Dir>, mod: Option<Dir>, k: Key)
    requires k.cf == Family(c)
    ensures At(DirWrite(ws, orig, mod), k) == At(AfterWrite(ws, c, AsRow(orig), AsRow(mod)), k)
  {
    var o, m := AsRow(orig), AsRow(mod);
    var ws1 := AfterWrite(ws, InodeSerde, o, m);
    var ws2 := AfterWrite(ws1, MTimeSerde, o, m);
    var ws3 := AfterWrite(ws2, ATimeSerde, o, m);
    EncoderIsLocal(ws, ws, InodeSerde, orig, mod, k);
    EncoderIsLocal(ws1, if c.InodeSerde? then ws1 else ws, MTimeSerde, orig, mod, k);
    EncoderIsLocal(ws2, if c.InodeSerde? || c.MTimeSerde? then ws2 else ws, ATimeSerde, orig, mod, k);
    EncoderIsLocal(ws3, if c.DEntSerde? then ws else ws3, DEntSerde, orig, mod, k);
  }

  lemma OverlayAt(db: Db, ws: WriteSet, ws': WriteSet, k: Key)
    requires At(ws, k) == At(ws', k)
    ensures Lookup(Overlay(db, ws), k) == Lookup(Overlay(db, ws'), k)
  {
  }

  lemma FamilyWritten(db: Db, ws: WriteSet, ws': WriteSet, c: Codec, orig: Option<Dir>, mod: Option<Dir>, k: Key)
    requires orig.Some? ==> HoldsEntry(Overlay(db, ws), c, DirRow(orig.value))
    requires k.cf == Family(c) && At(ws', k) == At(AfterWrite(ws, c, AsRow(orig), AsRow(mod)), k)
    ensures Lookup(Overlay(db, ws'), k) == WrittenAt(Lookup(Overlay(db, ws), k), c, orig, mod, k)
  {
    OverlayAt(db, ws', AfterWrite(ws, c, AsRow(orig), AsRow(mod)), k);
    IncrementalIsRewrite(db, ws, c, AsRow(orig), AsRow(mod));
  }

  function CodecFor(cf: CF): Codec
    requires !cf.DefaultCF?
    ensures Family(CodecFor(cf)) == cf
  {
    match cf
    case InodeCF => InodeSerde
    case MTimeCF => MTimeSerde
    case ATimeCF => ATimeSerde
    case DEntCF => DEntSerde
  }

  lemma EntryAt(d: Dir, c: Codec, k: Key)
    requires k.cf == Family(c)
    ensures k in Entries(d) <==> k == Key(Family(c), SerKey(c, DirRow(d)))
    ensures k in Entries(d) ==> Entries(d)[k] == SerVal(c, DirRow(d))
  {
  }

  lemma WriteAtKey(db: Db, ws: WriteSet, ws': WriteSet, orig: Option<Dir>, mod: Option<Dir>, k: Key)
    requires Holds(Overlay(db, ws), EntriesOf(orig))
    requires At(ws', k) == if k.cf.DefaultCF? then At(ws, k)
                           else At(AfterWrite(ws, CodecFor(k.cf), AsRow(orig), AsRow(mod)), k)
    ensures Lookup(Overlay(db, ws'), k) == Lookup((Overlay(db, ws) - EntriesOf(orig).Keys) + EntriesOf(mod), k)
  {
    if k.cf.DefaultCF? {
      OverlayAt(db, ws', ws, k);
    } else {
      var c := CodecFor(k.cf);
      if orig.Some? {
        EntryAt(orig.value, c, Key(k.cf, SerKey(c, DirRow(orig.value))));
        EntryAt(orig.value, c, k);
      }
      if mod.Some? { EntryAt(mod.value, c, k); }
      FamilyWritten(db, ws, ws', c, orig, mod, k);
    }
  }

  lemma WriteLeavesDefault(ws: WriteSet, orig: Option<Dir>, mod: Option<Dir>, k: Key)
    requires k.cf.DefaultCF?
    ensures At(DirWrite(ws, orig, mod), k) == At(ws, k)
  {
  }

  /** One Write, seen through the transaction's own writes, swaps the old row's entries for the new row's. */
  lemma WriteSwapsEntries(db: Db, ws: WriteSet, orig: Option<Dir>, mod: Option<Dir>)
    requires Holds(Overlay(db, ws), EntriesOf(orig))
    ensures Overlay(db, DirWrite(ws, orig, mod)) == (Overlay(db, ws) - EntriesOf(orig).Keys) + EntriesOf(mod)
  {
    var a, b := Overlay(db, DirWrite(ws, orig, mod)), (Overlay(db, ws) - EntriesOf(orig).Keys) + EntriesOf(mod);
    forall k: Key ensures Lookup(a, k) == Lookup(b, k) {
      if k.cf.DefaultCF? { WriteLeavesDefault(ws, orig, mod, k); } else { WriteByFamily(ws, CodecFor(k.cf), orig, mod, k); }
      WriteAtKey(db, ws, DirWrite(ws, orig, mod), orig, mod, k);
    }
    SameLookups(a, b);
  }
}
