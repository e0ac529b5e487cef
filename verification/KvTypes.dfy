/**
  The key-value store underneath the namenode, seen from above: one ordered map
  per column family, with values that are either raw bytes or the FlatBuffers
  records the encoders build. A FlatBuffers buffer is modelled by the record of
  the fields that are set in it, which makes the encoding injective.
 */
module KvTypes {
  import opened ByteStrings

  datatype Option<+T> = None | Some(value: T)

  /** The five column families, in index order. */
  datatype CF = DefaultCF | InodeCF | MTimeCF | ATimeCF | DEntCF

  datatype Key = Key(cf: CF, bytes: Bytes)

  datatype Value =
    | Raw(bytes: Bytes)
    | InodeDir(parentId: U64, name: Bytes, id: U64, ctime: I64)
    | InodeFile(id: U64, ctime: I64)
    | DEntDir(parentId: U64, name: Bytes, id: U64)
    | DEntLink(parentId: U64, name: Bytes, id: U64)

  type Db = map<Key, Value>

  /** A transaction's buffered writes: Some for Put, None for Del. */
  type WriteSet = map<Key, Option<Value>>

  function Lookup(db: Db, k: Key): Option<Value> {
    if k in db then Some(db[k]) else None
  }

  /** The database with the write set laid over it. */
  function Overlay(db: Db, ws: WriteSet): (r: Db)
    ensures forall k :: Lookup(r, k) == if k in ws then ws[k] else Lookup(db, k)
  {
    (db - ws.Keys) + (map k | k in ws && ws[k].Some? :: ws[k].value)
  }

  lemma SameLookups(a: Db, b: Db)
    requires forall k :: Lookup(a, k) == Lookup(b, k)
    ensures a == b
  {
    forall k ensures k in a <==> k in b { assert Lookup(a, k) == Lookup(b, k); }
    forall k | k in a ensures a[k] == b[k] { assert Lookup(a, k) == Lookup(b, k); }
  }

  lemma OverlayPut(db: Db, ws: WriteSet, k: Key, v: Value)
    ensures Overlay(db, ws[k := Some(v)]) == Overlay(db, ws)[k := v]
  {
  }

  lemma OverlayDel(db: Db, ws: WriteSet, k: Key)
    ensures Overlay(db, ws[k := None]) == Overlay(db, ws) - {k}
  {
    SameLookups(Overlay(db, ws[k := None]), Overlay(db, ws) - {k});
  }

  // ------------------------------------------------------- write batches

  /** One entry of a rocksdb::WriteBatch. */
  datatype BatchOp = PutOp(key: Key, value: Value) | DeleteOp(key: Key)

  function ApplyOp(db: Db, op: BatchOp): Db {
    match op
    case PutOp(k, v) => db[k := v]
    case DeleteOp(k) => db - {k}
  }

  /** A batch takes effect as a whole, its entries in order. */
  function ApplyBatch(db: Db, ops: seq<BatchOp>): Db {
    if |ops| == 0 then db else ApplyOp(ApplyBatch(db, ops[..|ops| - 1]), ops[|ops| - 1])
  }
}
