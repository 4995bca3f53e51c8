// What several parts of the kernel share.
module Common {

  datatype Option<T> = None | Some(value: T)

  const PAGE_4K := 4096
  const PAGE_2M := 0x20_0000

  /** One more than the largest `unsigned int`. */
  const LIMIT32 := 0x1_0000_0000
}
