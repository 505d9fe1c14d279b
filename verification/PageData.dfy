/** The contents of a page of memory. */
module PageData {
  import opened Common

  datatype Page = Page(bytes: seq<Byte>)

  function ZeroPage(): Page {
    Page(seq(PGSIZE, _ => 0))
  }

  function ByteAt(p: Page, i: nat): Byte {
    if i < |p.bytes| then p.bytes[i] else 0
  }

  function WithByte(p: Page, i: nat, b: Byte): Page {
    if i < |p.bytes| then Page(p.bytes[i := b]) else p
  }
}
