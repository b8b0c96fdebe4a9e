/** The mining difficulty as the three keepers keep it: one store entry under
    `DifficultyKey` holding an 8-byte big-endian `uint64`, read back as
    1 000 000 while nothing has been written. */
module DifficultyStore {
  import opened Wrappers
  import opened Bytes

  const DefaultDifficulty: nat := 1_000_000

  /** The store entry under `DifficultyKey`: absent, or the bytes written there. */
  type Cell = Option<seq<Byte>>

  /** Every writer stores exactly eight bytes, which is what the reader needs
      (`binary.BigEndian.Uint64` panics on fewer). */
  predicate Readable(cell: Cell) {
    cell.None? || |cell.value| >= 8
  }

  /** `GetDifficulty`. */
  function GetDifficulty(cell: Cell): (d: nat)
    requires Readable(cell)
    ensures cell.None? ==> d == DefaultDifficulty
    ensures d < U64
  {
    match cell
    case None => DefaultDifficulty
    case Some(bz) => Uint64BE(bz)
  }

  /** `SetDifficulty`: the entry becomes the eight big-endian bytes of `d`. */
  function SetDifficulty(d: nat): (cell: Cell)
    requires d < U64
    ensures cell.Some? && |cell.value| == 8 && Readable(cell)
  {
    Some(PutUint64BE(d))
  }

  /** Reading after writing returns what was written. */
  lemma SetThenGet(d: nat)
    requires d < U64
    ensures GetDifficulty(SetDifficulty(d)) == d
  {
    Uint64BERoundTrip(d);
  }

  /** Writing back what was read leaves a written eight-byte entry unchanged. */
  lemma GetThenSet(cell: Cell)
    requires cell.Some? && |cell.value| == 8
    ensures SetDifficulty(GetDifficulty(cell)) == cell
  {
    var bz := cell.value;
    assert bz[..8] == bz;
    BEOfFromBE(bz);
  }
}
