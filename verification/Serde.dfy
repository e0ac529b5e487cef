/**
  The row encoders of the namenode tables: which key and value each of the four
  column families stores for a row, and the incremental rule that turns an
  (original, modified) pair of rows into at most one delete and one put.
 */
module Serde {
  import opened ByteStrings
  import opened KvTypes
  import opened TxnStore

  datatype Acl = Acl(uid: int, gid: int, perm: bv64)

  datatype Dir = Dir(parentId: U64, name: Bytes, id: U64, acl: Acl, ctime: I64, mtime: I64, atime: I64)

  datatype File = File(id: U64, acl: Acl, ctime: I64, mtime: I64, atime: I64)

  datatype HardLink = HardLink(parentId: U64, name: Bytes, id: U64)

  datatype Row = DirRow(dir: Dir) | FileRow(file: File) | LinkRow(link: HardLink)

  datatype Codec = InodeSerde | MTimeSerde | ATimeSerde | DEntSerde

  /** An omitted Acl member is zero-initialised. */
  const NO_ACL := Acl(0, 0, 0)

  /** The overloads that exist. */
  predicate Handles(c: Codec, row: Row) {
    if c.DEntSerde? then !row.FileRow? else !row.LinkRow?
  }

  predicate SameTable(a: Row, b: Row) {
    (a.DirRow? <==> b.DirRow?) && (a.FileRow? <==> b.FileRow?)
  }

  function Family(c: Codec): CF {
    match c
    case InodeSerde => InodeCF
    case MTimeSerde => MTimeCF
    case ATimeSerde => ATimeCF
    case DEntSerde => DEntCF
  }

  function RowId(row: Row): U64 {
    match row
    case DirRow(d) => d.id
    case FileRow(f) => f.id
    case LinkRow(l) => l.id
  }

  // ------------------------------------------------------------- encoders

  /** Eight big-endian bytes of the parent id, then the name. */
  function DentKey(parentId: U64, name: Bytes): Bytes {
    Encode64(parentId) + name
  }

  function TimeValue(t: I64): Value {
    Raw(Encode64(ToUnsigned(t)))
  }

  function SerKey(c: Codec, row: Row): Bytes
    requires Handles(c, row)
  {
    if c.DEntSerde? then
      if row.DirRow? then DentKey(row.dir.parentId, row.dir.name) else DentKey(row.link.parentId, row.link.name)
    else Encode64(RowId(row))
  }

  function SerVal(c: Codec, row: Row): Value
    requires Handles(c, row)
  {
    match (c, row)
    case (InodeSerde, DirRow(d)) => InodeDir(d.parentId, d.name, d.id, d.ctime)
    case (InodeSerde, FileRow(f)) => InodeFile(f.id, f.ctime)
    case (MTimeSerde, DirRow(d)) => TimeValue(d.mtime)
    case (MTimeSerde, FileRow(f)) => TimeValue(f.mtime)
    case (ATimeSerde, DirRow(d)) => TimeValue(d.atime)
    case (ATimeSerde, FileRow(f)) => TimeValue(f.atime)
    case (DEntSerde, DirRow(d)) => DEntDir(d.parentId, d.name, d.id)
    case (DEntSerde, LinkRow(l)) => DEntLink(l.parentId, l.name, l.id)
  }

  /** DEntSerde::SerKey: size a buffer, store the parent id, copy the name behind it. */
  method BuildDentKey(parentId: U64, name: Bytes) returns (key: Bytes)
    ensures key == DentKey(parentId, name)
  {
    var buf := new Byte[8 + |name|];
    Store64(buf, parentId);
    for i := 0 to |name|
      invariant buf[..8] == Encode64(parentId)
      invariant buf[8..8 + i] == name[..i]
    {
      buf[8 + i] := name[i];
      assert buf[8..8 + i + 1] == buf[8..8 + i] + [name[i]];
    }
    key := buf[..];
    assert key == buf[..8] + buf[8..8 + |name|];
  }

  /** MTimeSerde::SerVal and ATimeSerde::SerVal, a signed time stored as eight unsigned bytes. */
  method BuildTime(t: I64) returns (s: Bytes)
    ensures Raw(s) == TimeValue(t)
    ensures |s| == 8 && FromBigEndian(s) == if t >= 0 then t else t + TWO64
  {
    var buf := new Byte[8];
    Store64(buf, ToUnsigned(t));
    s := buf[..];
    assert s == buf[..8];
    Encode64RoundTrip(ToUnsigned(t));
  }

  // ------------------------------------------------------------- decoders

  /** InodeSerde::DeVal; None is a failed CHECK. The acl and the two separate times are not in the record. */
  function DeInode(v: Value): Option<Row> {
    match v
    case InodeDir(p, n, id, ct) => Some(DirRow(Dir(p, n, id, NO_ACL, ct, 0, 0)))
    case InodeFile(id, ct) => Some(FileRow(File(id, NO_ACL, ct, 0, 0)))
    case _ => None
  }

  /** MTimeSerde::DeVal and ATimeSerde::DeVal. */
  function DeTime(v: Value): Option<I64> {
    match v
    case Raw(b) => if |b| == 8 then Some(ToSigned(Decode64(b))) else None
    case _ => None
  }

  /** DEntSerde::DeVal. */
  function DeDent(v: Value): Option<Row> {
    match v
    case DEntDir(p, n, id) => Some(DirRow(Dir(p, n, id, NO_ACL, 0, 0, 0)))
    case DEntLink(p, n, id) => Some(LinkRow(HardLink(p, n, id)))
    case _ => None
  }

  /** A time comes back as it was stored, negative ones included. */
  lemma TimeRoundTrip(t: I64)
    ensures DeTime(TimeValue(t)) == Some(t)
  {
    Encode64RoundTrip(ToUnsigned(t));
  }

  /** What an inode or dent value keeps of a row: everything it has but the acl and, in the inode, the two separate times. */
  lemma RowRoundTrip(row: Row)
    ensures row.DirRow? ==>
              var d := row.dir;
              && DeInode(SerVal(InodeSerde, row)) == Some(DirRow(d.(acl := NO_ACL, mtime := 0, atime := 0)))
              && DeDent(SerVal(DEntSerde, row)) == Some(DirRow(Dir(d.parentId, d.name, d.id, NO_ACL, 0, 0, 0)))
              && DeTime(SerVal(MTimeSerde, row)) == Some(d.mtime) && DeTime(SerVal(ATimeSerde, row)) == Some(d.atime)
    ensures row.FileRow? ==>
              var f := row.file;
              && DeInode(SerVal(InodeSerde, row)) == Some(FileRow(f.(acl := NO_ACL, mtime := 0, atime := 0)))
              && DeTime(SerVal(MTimeSerde, row)) == Some(f.mtime) && DeTime(SerVal(ATimeSerde, row)) == Some(f.atime)
    ensures row.LinkRow? ==> DeDent(SerVal(DEntSerde, row)) == Some(row)
  {
    if row.DirRow? {
      TimeRoundTrip(row.dir.mtime);
      TimeRoundTrip(row.dir.atime);
    } else if row.FileRow? {
      TimeRoundTrip(row.file.mtime);
      TimeRoundTrip(row.file.atime);
    }
  }

  // --------------------------------------------------------- key ordering

  /** Byte order of dent keys is the order on (parent, name), parents compared as unsigned numbers. */
  lemma DentKeyOrder(p: U64, n: Bytes, q: U64, m: Bytes)
    ensures Less(DentKey(p, n), DentKey(q, m)) <==> p < q || (p == q && Less(n, m))
  {
    Pow256Of8();
    if p < q {
      BigEndianMonotone(p, q, 8);
      LessBeforeSuffix(Encode64(p), Encode64(q), n, m);
    } else if q < p {
      BigEndianMonotone(q, p, 8);
      LessBeforeSuffix(Encode64(q), Encode64(p), m, n);
      if Less(DentKey(p, n), DentKey(q, m)) {
        LessTransitive(DentKey(p, n), DentKey(q, m), DentKey(p, n));
        LessIrreflexive(DentKey(p, n));
      }
    } else {
      LessUnderPrefix(Encode64(p), n, m);
    }
  }

  lemma DentKeyInjective(p: U64, n: Bytes, q: U64, m: Bytes)
    ensures DentKey(p, n) == DentKey(q, m) <==> p == q && n == m
  {
    assert DentKey(p, n)[..8] == Encode64(p) && DentKey(q, m)[..8] == Encode64(q);
    assert DentKey(p, n)[8..] == n && DentKey(q, m)[8..] == m;
    Encode64Injective(p, q);
  }

  /** Whatever lies between two keys of one parent carries that parent's prefix. */
  lemma {:induction false} BetweenSharesPrefix(p: Bytes, a: Bytes, b: Bytes, k: Bytes)
    requires !Less(k, p + a) && !Less(p + b, k)
    ensures |k| >= |p| && k[..|p|] == p
    decreases |p|
  {
    if |p| > 0 {
      assert (p + a)[0] == p[0] && (p + b)[0] == p[0];
      assert |k| > 0 && k[0] == p[0];
      assert (p + a)[1..] == p[1..] + a && (p + b)[1..] == p[1..] + b;
      BetweenSharesPrefix(p[1..], a, b, k[1..]);
      assert k[..|p|] == [k[0]] + k[1..][..|p| - 1];
    }
  }

  /** Each parent's dent keys form one interval. */
  lemma ParentInterval(p: U64, a: Bytes, b: Bytes, k: Bytes)
    requires !Less(k, DentKey(p, a)) && !Less(DentKey(p, b), k)
    ensures |k| >= 8 && k == DentKey(p, k[8..])
  {
    BetweenSharesPrefix(Encode64(p), a, b, k);
    assert k == k[..8] + k[8..];
  }

  // ---------------------------------------------------- incremental writes

  predicate IsKeyChanged(c: Codec, o: Row, m: Row)
    requires Handles(c, o) && Handles(c, m) && SameTable(o, m)
  {
    if c.DEntSerde? then
      if o.DirRow? then o.dir.parentId != m.dir.parentId || o.dir.name != m.dir.name
      else o.link.parentId != m.link.parentId || o.link.name != m.link.name
    else RowId(o) != RowId(m)
  }

  predicate IsValueChanged(c: Codec, o: Row, m: Row)
    requires Handles(c, o) && Handles(c, m) && SameTable(o, m)
  {
    match c
    case InodeSerde =>
      if o.DirRow? then
        o.dir.parentId != m.dir.parentId || o.dir.name != m.dir.name || o.dir.id != m.dir.id ||
        o.dir.acl != m.dir.acl || o.dir.ctime != m.dir.ctime
      else o.file.id != m.file.id || o.file.acl != m.file.acl || o.file.ctime != m.file.ctime
    case MTimeSerde => if o.DirRow? then o.dir.mtime != m.dir.mtime else o.file.mtime != m.file.mtime
    case ATimeSerde => if o.DirRow? then o.dir.atime != m.dir.atime else o.file.atime != m.file.atime
    case DEntSerde => RowId(o) != RowId(m)
  }

  /** IsKeyChanged says exactly whether the encoded keys differ. */
  lemma KeyChangedExact(c: Codec, o: Row, m: Row)
    requires Handles(c, o) && Handles(c, m) && SameTable(o, m)
    ensures IsKeyChanged(c, o, m) <==> SerKey(c, o) != SerKey(c, m)
  {
    if !c.DEntSerde? {
      Encode64Injective(RowId(o), RowId(m));
    } else if o.DirRow? {
      DentKeyInjective(o.dir.parentId, o.dir.name, m.dir.parentId, m.dir.name);
    } else {
      DentKeyInjective(o.link.parentId, o.link.name, m.link.parentId, m.link.name);
    }
  }

  function RowAcl(row: Row): Acl {
    match row
    case DirRow(d) => d.acl
    case FileRow(f) => f.acl
    case LinkRow(_) => NO_ACL
  }

  /** Under an unchanged key, IsValueChanged says whether the encoded values differ; the inode also minds the unstored acl. */
  lemma ValueChangedExact(c: Codec, o: Row, m: Row)
    requires Handles(c, o) && Handles(c, m) && SameTable(o, m) && SerKey(c, o) == SerKey(c, m)
    ensures IsValueChanged(c, o, m) <==> SerVal(c, o) != SerVal(c, m) || (c.InodeSerde? && RowAcl(o) != RowAcl(m))
  {
    KeyChangedExact(c, o, m);
    if !o.LinkRow? {
      RowRoundTrip(o);
      RowRoundTrip(m);
    }
  }

  datatype WriteOps = WriteOps(delKey: Option<Bytes>, putKv: Option<(Bytes, Value)>)

  predicate Writable(c: Codec, orig: Option<Row>, mod: Option<Row>) {
    && (orig.Some? ==> Handles(c, orig.value))
    && (mod.Some? ==> Handles(c, mod.value))
    && (orig.Some? && mod.Some? ==> SameTable(orig.value, mod.value))
  }

  function GetWriteOps(c: Codec, orig: Option<Row>, mod: Option<Row>): WriteOps
    requires Writable(c, orig, mod)
  {
    if mod.None? then
      WriteOps(if orig.Some? then Some(SerKey(c, orig.value)) else None, None)
    else if orig.None? then
      WriteOps(None, Some((SerKey(c, mod.value), SerVal(c, mod.value))))
    else
      var keyChanged := IsKeyChanged(c, orig.value, mod.value);
      var valueChanged := IsValueChanged(c, orig.value, mod.value);
      WriteOps(if keyChanged then Some(SerKey(c, orig.value)) else None,
               if keyChanged || valueChanged then Some((SerKey(c, mod.value), SerVal(c, mod.value))) else None)
  }

  /** Serde::Write on a write set: the delete, then the put. */
  function AfterWrite(ws: WriteSet, c: Codec, orig: Option<Row>, mod: Option<Row>): WriteSet
    requires Writable(c, orig, mod)
  {
    var ops := GetWriteOps(c, orig, mod);
    var ws' := if ops.delKey.Some? then ws[Key(Family(c), ops.delKey.value) := None] else ws;
    if ops.putKv.Some? then ws'[Key(Family(c), ops.putKv.value.0) := Some(ops.putKv.value.1)] else ws'
  }

  /** The write set changes at no key but the two rows', and not at all for an unchanged row. */
  lemma WritesOnlyChanges(ws: WriteSet, c: Codec, orig: Option<Row>, mod: Option<Row>)
    requires Writable(c, orig, mod)
    ensures forall k :: !(orig.Some? && k == Key(Family(c), SerKey(c, orig.value))) &&
                        !(mod.Some? && k == Key(Family(c), SerKey(c, mod.value))) ==>
              (k in AfterWrite(ws, c, orig, mod) <==> k in ws) && (k in ws ==> AfterWrite(ws, c, orig, mod)[k] == ws[k])
    ensures orig.Some? && mod.Some? && SerKey(c, orig.value) == SerKey(c, mod.value) && SerVal(c, orig.value) == SerVal(c, mod.value) &&
            RowAcl(orig.value) == RowAcl(mod.value) ==>
              AfterWrite(ws, c, orig, mod) == ws
  {
    if orig.Some? && mod.Some? {
      KeyChangedExact(c, orig.value, mod.value);
      if SerKey(c, orig.value) == SerKey(c, mod.value) { ValueChangedExact(c, orig.value, mod.value); }
    }
  }

  /** Serde::Write on a transaction. */
  method Write(c: Codec, txn: Txn, orig: Option<Row>, mod: Option<Row>)
    requires Writable(c, orig, mod)
    modifies txn`writeSet
    ensures txn.writeSet == AfterWrite(old(txn.writeSet), c, orig, mod)
  {
    var ops := GetWriteOps(c, orig, mod);
    if ops.delKey.Some? { txn.Del(Key(Family(c), ops.delKey.value)); }
    if ops.putKv.Some? { txn.Put(Key(Family(c), ops.putKv.value.0), ops.putKv.value.1); }
  }

  /** Drop the original's entry, then store the modified row's: what the family should hold. */
  function Rewrite(db: Db, c: Codec, orig: Option<Row>, mod: Option<Row>): Db
    requires Writable(c, orig, mod)
  {
    var db' := if orig.Some? then db - {Key(Family(c), SerKey(c, orig.value))} else db;
    if mod.Some? then db'[Key(Family(c), SerKey(c, mod.value)) := SerVal(c, mod.value)] else db'
  }

  /** The database holds this row's entry in this family. */
  predicate HoldsEntry(db: Db, c: Codec, row: Row)
    requires Handles(c, row)
  {
    Lookup(db, Key(Family(c), SerKey(c, row))) == Some(SerVal(c, row))
  }

  /**
    The incremental write is the full rewrite, for every encoder and row type, as
    seen through the transaction's own writes.
   */
  lemma IncrementalIsRewrite(db: Db, ws: WriteSet, c: Codec, orig: Option<Row>, mod: Option<Row>)
    requires Writable(c, orig, mod)
    requires orig.Some? ==> HoldsEntry(Overlay(db, ws), c, orig.value)
    ensures Overlay(db, AfterWrite(ws, c, orig, mod)) == Rewrite(Overlay(db, ws), c, orig, mod)
  {
    var ops := GetWriteOps(c, orig, mod);
    var ws' := ws;
    if ops.delKey.Some? {
      OverlayDel(db, ws, Key(Family(c), ops.delKey.value));
      ws' := ws[Key(Family(c), ops.delKey.value) := None];
    }
    if ops.putKv.Some? {
      OverlayPut(db, ws', Key(Family(c), ops.putKv.value.0), ops.putKv.value.1);
    }
    if orig.Some? && mod.Some? {
      KeyChangedExact(c, orig.value, mod.value);
      SameLookups(Overlay(db, AfterWrite(ws, c, orig, mod)), Rewrite(Overlay(db, ws), c, orig, mod));
    }
  }
}
