/** The symbol alphabet and the frequency tables attached to every context. */
module FrequencyTable {

  /** Number of symbols: the 256 byte values plus one reserved symbol. */
  const SymbolLimit: nat := 257

  /** The reserved symbol: "escape" in a context of order >= 0, end of stream at order -1. */
  const EscapeSymbol: nat := 256

  /** A table maps each symbol (by index) to its count. */
  type Table = seq<nat>

  /** A table of `symbols` entries, every count 0. */
  function Zeroed(symbols: nat): (t: Table)
    ensures |t| == symbols
    ensures forall s :: 0 <= s < symbols ==> t[s] == 0
  {
    seq(symbols, _ => 0)
  }

  /** A table of `symbols` entries, every count 1. */
  function Flat(symbols: nat): (t: Table)
    ensures |t| == symbols
    ensures forall s :: 0 <= s < symbols ==> t[s] == 1
  {
    seq(symbols, _ => 1)
  }

  /** Adds one occurrence of `s`; every other count is left alone. */
  function Increment(t: Table, s: nat): (r: Table)
    requires s < |t|
    ensures |r| == |t|
    ensures r[s] == t[s] + 1
    ensures forall k :: 0 <= k < |t| && k != s ==> r[k] == t[k]
  {
    t[s := t[s] + 1]
  }
}
