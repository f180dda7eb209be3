/** Bytes, a loaded image with its sections and its memory, and the reader through which it is read. */
module LoadedImage {
  type byte = x: int | 0 <= x < 256

  datatype Section = Section(rva: nat, size: nat, readable: bool, writable: bool, executable: bool, discardable: bool)
  datatype Image = Image(sections: seq<Section>, bytes: seq<byte>)

  /** The reader's answer to one call: a window at the asked place, and whether it then copies it. */
  datatype Grant = Grant(readable: bool, size: nat, copied: bool)

  /** By number of the call, place and most bytes wanted. */
  type Reader = (nat, int, nat) -> Grant

  predicate Granted(g: Grant, maximum: nat) { g.readable && 0 < g.size <= maximum && g.copied }

  /** A reader that never refuses. */
  ghost predicate Willing(reader: Reader) {
    forall n: nat, at: int, maximum: nat | maximum > 0 :: Granted(reader(n, at, maximum), maximum)
  }
}
