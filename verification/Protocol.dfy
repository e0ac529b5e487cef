/** Messages shared by the namenode service and the FUSE client. */
module Protocol {
  import opened ByteStrings

  const S_IFDIR := 0x4000
  const S_IFREG := 0x8000

  /** ListDirResponse::DEnt. */
  datatype DEnt = DEnt(id: U64, name: Bytes, kind: int)
}
