/**
 * The compression loop: each input byte is coded by the escape walk, then
 * counted in the model with the history it was coded under, then pushed into
 * the history; the end of stream is coded once after the last byte.
 */
module Compressor {
  import opened Wrappers
  import opened FrequencyTable
  import opened ContextTree
  import opened TreeFacts
  import opened EscapeWalk

  /** A value read from the input stream. */
  type Byte = b: nat | b < 256

  /** The coding state between two bytes: the model, the history (newest first) and the coder trace so far. */
  datatype Coder = Coder(model: Model, history: seq<nat>, trace: seq<Write>)

  function Min(a: int, b: int): (r: int)
    ensures r <= a && r <= b && (r == a || r == b)
  {
    if a < b then a else b
  }

  /** The sequence read back to front. */
  function Reverse(s: seq<nat>): (r: seq<nat>)
    ensures |r| == |s|
    ensures forall i :: 0 <= i < |s| ==> r[i] == s[|s| - 1 - i]
  {
    if s == [] then [] else Reverse(s[1..]) + [s[0]]
  }

  /** The up to `order` most recent symbols of `input`, newest first. */
  function Recent(input: seq<nat>, order: nat): (h: seq<nat>)
    ensures |h| == Min(|input|, order)
  {
    Reverse(input)[..Min(|input|, order)]
  }

  /**
   * Advances the history past `sym`: with an order of at least 1 the symbol
   * goes in front and the oldest one is dropped once the history holds
   * `order` symbols; with a smaller order the history stays as it is.
   */
  function PushHistory(history: seq<nat>, sym: nat, order: Int32): (h: seq<nat>)
    ensures order < 1 ==> h == history
    ensures 1 <= order && |history| <= order ==> h == ([sym] + history)[..Min(|history| + 1, order)]
  {
    if order >= 1 then
      var kept := if |history| >= order then history[..|history| - 1] else history;
      [sym] + kept
    else history
  }

  /** Pushing a byte into the recent bytes gives the recent bytes of the longer input. */
  lemma PushRecent(input: seq<nat>, b: nat, order: Int32)
    requires order >= 0
    ensures PushHistory(Recent(input, order), b, order) == Recent(input + [b], order)
  {
    var longer := Reverse(input + [b]);
    assert longer == [b] + Reverse(input) by {
      assert forall i :: 0 <= i < |longer| ==> longer[i] == ([b] + Reverse(input))[i];
    }
  }

  /** The state before the first byte: a fresh model, an empty history, nothing written. */
  function Start(et: Int32, ct: Int32, m: Int32, z: Int32): (c: Coder)
    ensures c.history == [] && c.trace == []
    ensures c.model.order == m && c.model.extensibility == et && c.model.credibility == ct && c.model.nodeLimit == z
    ensures c.model.root.Some? <==> m >= 0
    ensures Valid(c.model)
  {
    Coder(NewModel(et, ct, m, z), [], [])
  }

  /** Codes one byte, counts it under the history it was coded with, then advances the history. */
  function Step(c: Coder, b: Byte): (r: Result<Coder, Fault>)
    requires c.model.root.Some? && Sized(c.model.root.value)
    ensures r.Ok? ==> r.value.model.root.Some? && Sized(r.value.model.root.value)
    ensures r.Ok? ==> r.value.model.order == c.model.order
  {
    var writes :- EncodeSymbol(c.model, c.history, b);
    var model :- IncrementContexts(c.model, c.history, b);
    Ok(Coder(model, PushHistory(c.history, b, model.order), c.trace + writes))
  }

  /** Codes the bytes of `input` in turn, stopping at the first fault. */
  function Process(c: Coder, input: seq<Byte>): (r: Result<Coder, Fault>)
    requires c.model.root.Some? && Sized(c.model.root.value)
    ensures r.Ok? ==> r.value.model.root.Some? && Sized(r.value.model.root.value)
    ensures r.Ok? ==> r.value.model.order == c.model.order
    decreases |input|
  {
    if input == [] then Ok(c)
    else
      var before :- Process(c, input[..|input| - 1]);
      Step(before, input[|input| - 1])
  }

  /**
   * Compresses `input` with a model of order `m`: the writes of the byte loop
   * come first, and the stream is closed by end of stream in the flat table.
   */
  function Compress(et: Int32, ct: Int32, m: Int32, z: Int32, input: seq<Byte>): (r: Result<seq<Write>, Fault>)
    requires m >= 0
    ensures r.Ok? ==> |r.value| >= 1 && r.value[|r.value| - 1] == Write(-1, OrderMinus1Freqs(), EscapeSymbol)
    ensures r.Ok? ==> Process(Start(et, ct, m, z), input).Ok? && Process(Start(et, ct, m, z), input).value.trace < r.value
  {
    var c :- Process(Start(et, ct, m, z), input);
    var eof :- EncodeSymbol(c.model, c.history, EscapeSymbol);
    Ok(c.trace + eof)
  }
}
