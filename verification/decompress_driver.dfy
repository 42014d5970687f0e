/**
 * The second driver, which despite its name compresses too: it clamps the
 * order to at most 3, rejects stream values outside 0..255, and otherwise
 * runs the same walk, update and history logic as the first driver.
 */
module DecompressDriver {
  import opened Wrappers
  import opened FrequencyTable
  import opened ContextTree
  import opened EscapeWalk
  import opened Compressor
  import opened CompressorFacts

  /** The value the stream reader returns at the end of the stream. */
  const EndOfFile: int := -1

  /** The order the driver builds its model with: the requested one, capped at 3. */
  function ClampOrder(z: Int32): (m: Int32)
    ensures m <= 3 && m <= z
    ensures m == 3 || m == z
  {
    if z > 3 then 3 else z
  }

  /** The values the driver reads: everything before the first end-of-file marker. */
  function BeforeEof(values: seq<int>): (r: seq<int>)
    ensures r <= values
    ensures forall i :: 0 <= i < |r| ==> r[i] != EndOfFile
    ensures |r| < |values| ==> values[|r|] == EndOfFile
  {
    if values == [] || values[0] == EndOfFile then []
    else [values[0]] + BeforeEof(values[1..])
  }

  predicate InByteRange(v: int) {
    0 <= v <= 255
  }

  /** The model the driver starts from; the settings other than the order are never read. */
  function DriverStart(z: Int32): (c: Coder)
    ensures c.history == [] && c.trace == []
    ensures c.model.order == ClampOrder(z)
    ensures c.model.root.Some? <==> z >= 0
    ensures c.model.extensibility == 0 && c.model.credibility == 0 && c.model.nodeLimit == 0
    ensures Valid(c.model)
  {
    Start(0, 0, ClampOrder(z), 0)
  }

  /** The byte loop: each value is range-checked, then coded as by the first driver. */
  function Run(c: Coder, values: seq<int>): (r: Result<Coder, Fault>)
    requires c.model.root.Some? && Sized(c.model.root.value)
    ensures r.Ok? ==> r.value.model.root.Some? && Sized(r.value.model.root.value)
    decreases |values|
  {
    if values == [] then Ok(c)
    else
      var c' :- Run(c, values[..|values| - 1]);
      var v := values[|values| - 1];
      if !InByteRange(v) then Err(AssertionError)
      else Step(c', v)
  }

  /** The whole driver on the values the stream yields; a negative order is undefined behaviour and excluded. */
  function DriverCompress(z: Int32, values: seq<int>): (r: Result<seq<Write>, Fault>)
    requires z >= 0
    ensures r.Ok? ==> |r.value| >= 1 && r.value[|r.value| - 1] == Write(-1, OrderMinus1Freqs(), EscapeSymbol)
    ensures r.Ok? ==> Run(DriverStart(z), BeforeEof(values)).Ok? && Run(DriverStart(z), BeforeEof(values)).value.trace < r.value
  {
    var c :- Run(DriverStart(z), BeforeEof(values));
    var eof :- EncodeSymbol(c.model, c.history, EscapeSymbol);
    Ok(c.trace + eof)
  }

  /** In-range values as bytes. */
  function AsBytes(values: seq<int>): (bytes: seq<Byte>)
    requires forall i :: 0 <= i < |values| ==> InByteRange(values[i])
    ensures |bytes| == |values|
    ensures forall i :: 0 <= i < |bytes| ==> bytes[i] == values[i]
  {
    if values == [] then []
    else
      assert InByteRange(values[0]);
      [values[0] as Byte] + AsBytes(values[1..])
  }

  /** On in-range values the driver's loop is exactly the first driver's loop. */
  lemma {:induction false} RunMatchesProcess(c: Coder, values: seq<int>)
    requires c.model.root.Some? && Sized(c.model.root.value)
    requires forall i :: 0 <= i < |values| ==> InByteRange(values[i])
    ensures Run(c, values) == Process(c, AsBytes(values))
    decreases |values|
  {
    if values != [] {
      var prefix := values[..|values| - 1];
      RunMatchesProcess(c, prefix);
      assert AsBytes(values)[..|values| - 1] == AsBytes(prefix);
    }
  }

  /** In-range values never fault. */
  lemma GoodValuesRun(z: Int32, good: seq<int>)
    requires z >= 0
    requires forall i :: 0 <= i < |good| ==> InByteRange(good[i])
    ensures Run(DriverStart(z), good).Ok?
  {
    RunMatchesProcess(DriverStart(z), good);
    RunInvariant(0, 0, ClampOrder(z), 0, AsBytes(good));
  }

  /** After in-range values, an out-of-range one is an assertion error. */
  lemma RejectsFirstBadValue(z: Int32, good: seq<int>, v: int)
    requires z >= 0 && !InByteRange(v)
    requires forall i :: 0 <= i < |good| ==> InByteRange(good[i])
    ensures Run(DriverStart(z), good + [v]) == Err(AssertionError)
  {
    GoodValuesRun(z, good);
    assert (good + [v])[..|good|] == good;
  }

  /** An out-of-range value stops the driver with an assertion error. */
  lemma {:induction false} RunRejects(z: Int32, values: seq<int>, k: nat)
    requires z >= 0 && k < |values| && !InByteRange(values[k])
    ensures Run(DriverStart(z), values) == Err(AssertionError)
    decreases |values|
  {
    var n := |values|;
    var prefix := values[..n - 1];
    assert prefix + [values[n - 1]] == values;
    if k < n - 1 {
      assert prefix[k] == values[k];
      RunRejects(z, prefix, k);
    } else if i :| 0 <= i < n - 1 && !InByteRange(prefix[i]) {
      RunRejects(z, prefix, i);
    } else {
      RejectsFirstBadValue(z, prefix, values[n - 1]);
    }
  }

  /**
   * When every value before the end of the stream is a byte, the driver codes
   * exactly what the first driver codes with the clamped order, whatever the
   * other settings are.
   */
  lemma DriverMatchesCompress(z: Int32, values: seq<int>, et: Int32, ct: Int32, nz: Int32)
    requires z >= 0
    requires forall i :: 0 <= i < |BeforeEof(values)| ==> InByteRange(BeforeEof(values)[i])
    ensures DriverCompress(z, values) == Compress(et, ct, ClampOrder(z), nz, AsBytes(BeforeEof(values)))
  {
    var bytes := AsBytes(BeforeEof(values));
    RunMatchesProcess(DriverStart(z), BeforeEof(values));
    ConfigIrrelevant(0, 0, 0, et, ct, nz, ClampOrder(z), bytes);
  }

  /** The driver succeeds exactly when every value before the end of the stream is a byte, and otherwise reports an assertion error. */
  lemma DriverOutcome(z: Int32, values: seq<int>)
    requires z >= 0
    ensures DriverCompress(z, values).Ok? <==> forall i :: 0 <= i < |BeforeEof(values)| ==> InByteRange(BeforeEof(values)[i])
    ensures DriverCompress(z, values).Err? ==> DriverCompress(z, values).error == AssertionError
  {
    var vs := BeforeEof(values);
    if forall i :: 0 <= i < |vs| ==> InByteRange(vs[i]) {
      DriverMatchesCompress(z, values, 0, 0, 0);
      CompressTrace(0, 0, ClampOrder(z), 0, AsBytes(vs));
    } else {
      var k :| 0 <= k < |vs| && !InByteRange(vs[k]);
      RunRejects(z, vs, k);
    }
  }
}
