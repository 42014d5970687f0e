/**
 * Properties of a whole compression run: the history is always the most
 * recent bytes, every context's counts are the occurrence counts of the
 * input, every coded symbol is codable, and the stream ends with exactly one
 * end-of-stream code.
 */
module CompressorFacts {
  import opened Wrappers
  import opened FrequencyTable
  import opened ContextTree
  import opened TreeFacts
  import opened EscapeWalk
  import opened Compressor

  /**
   * What holds after coding `input` with configuration (et, ct, m, z): the
   * model is valid and keeps its configuration, the history is the most
   * recent bytes, and every write so far is codable, carries the reserved
   * symbol only as an escape at an order >= 0, and there are at most m + 2
   * writes per byte.
   */
  predicate RunState(c: Coder, et: Int32, ct: Int32, m: Int32, z: Int32, input: seq<Byte>)
    requires m >= 0
  {
    && Valid(c.model)
    && c.model.extensibility == et && c.model.credibility == ct && c.model.order == m && c.model.nodeLimit == z
    && c.history == Recent(input, m)
    && |c.trace| <= |input| * (m + 2)
    && forall i :: 0 <= i < |c.trace| ==>
      Codable(c.trace[i]) && (c.trace[i].symbol == EscapeSymbol ==> c.trace[i].order >= 0)
  }

  /** The recent bytes are bytes. */
  lemma RecentBytes(input: seq<Byte>, m: nat)
    ensures forall i :: 0 <= i < |Recent(input, m)| ==> Recent(input, m)[i] < 256
  {
    forall i | 0 <= i < |Recent(input, m)|
      ensures Recent(input, m)[i] < 256
    {
      assert Recent(input, m)[i] == Reverse(input)[i] == input[|input| - 1 - i];
    }
  }

  /** Appending the writes of one byte keeps every write codable, with the reserved symbol only as an escape. */
  lemma AppendWrites(t: seq<Write>, writes: seq<Write>)
    requires forall i :: 0 <= i < |t| ==> Codable(t[i]) && (t[i].symbol == EscapeSymbol ==> t[i].order >= 0)
    requires forall i :: 0 <= i < |writes| ==> Codable(writes[i])
    requires forall i :: 0 <= i < |writes| && writes[i].symbol == EscapeSymbol ==> writes[i].order >= 0
    ensures forall i :: 0 <= i < |t + writes| ==>
      Codable((t + writes)[i]) && ((t + writes)[i].symbol == EscapeSymbol ==> (t + writes)[i].order >= 0)
  {
    forall i | 0 <= i < |t + writes|
      ensures Codable((t + writes)[i]) && ((t + writes)[i].symbol == EscapeSymbol ==> (t + writes)[i].order >= 0)
    {
      if i >= |t| {
        assert (t + writes)[i] == writes[i - |t|];
      } else {
        assert (t + writes)[i] == t[i];
      }
    }
  }

  /** One byte keeps the run state. */
  lemma StepKeepsRunState(c: Coder, et: Int32, ct: Int32, m: Int32, z: Int32, prefix: seq<Byte>, b: Byte)
    requires m >= 0 && RunState(c, et, ct, m, z, prefix)
    ensures Step(c, b).Ok?
    ensures RunState(Step(c, b).value, et, ct, m, z, prefix + [b])
  {
    RecentBytes(prefix, m);
    EncodeOnValidModel(c.model, c.history, b);
    IncrementOutcome(c.model, c.history, b);
    PushRecent(prefix, b, m);
    var writes := EncodeSymbol(c.model, c.history, b).value;
    AppendWrites(c.trace, writes);
    var after := Step(c, b).value;
    assert after.trace == c.trace + writes;
    assert |after.trace| <= |prefix + [b]| * (m + 2) by {
      assert |writes| <= m + 2;
      assert |prefix| * (m + 2) + (m + 2) == (|prefix| + 1) * (m + 2);
    }
  }

  /** Coding any input from the start never faults and ends in the run state. */
  lemma {:induction false} RunInvariant(et: Int32, ct: Int32, m: Int32, z: Int32, input: seq<Byte>)
    requires m >= 0
    ensures Process(Start(et, ct, m, z), input).Ok?
    ensures RunState(Process(Start(et, ct, m, z), input).value, et, ct, m, z, input)
    decreases |input|
  {
    if input != [] {
      var prefix := input[..|input| - 1];
      var b := input[|input| - 1];
      assert prefix + [b] == input;
      RunInvariant(et, ct, m, z, prefix);
      var c := Process(Start(et, ct, m, z), prefix).value;
      StepKeepsRunState(c, et, ct, m, z, prefix, b);
      assert Process(Start(et, ct, m, z), input) == Step(c, b);
    }
  }

  /**
   * How many bytes of `input` equal `s` and were coded in a context that
   * extends `path`, the context of byte j being the up to `order` bytes
   * before it, newest first.
   */
  function Occurrences(input: seq<Byte>, order: nat, path: seq<nat>, s: nat): (n: nat)
    ensures n <= |input|
    decreases |input|
  {
    if input == [] then 0
    else
      var j := |input| - 1;
      Occurrences(input[..j], order, path, s) + (if input[j] == s && path <= Recent(input[..j], order) then 1 else 0)
  }

  /** Some byte of `input` was coded in a context extending `path`; the empty path (the root) always is. */
  predicate Seen(input: seq<Byte>, order: nat, path: seq<nat>)
    decreases |input|
  {
    if input == [] then path == []
    else
      var j := |input| - 1;
      Seen(input[..j], order, path) || path <= Recent(input[..j], order)
  }

  lemma {:induction false} UnseenHasNoOccurrences(input: seq<Byte>, order: nat, path: seq<nat>, s: nat)
    requires !Seen(input, order, path)
    ensures Occurrences(input, order, path, s) == 0
    decreases |input|
  {
    if input != [] {
      UnseenHasNoOccurrences(input[..|input| - 1], order, path, s);
    }
  }

  /**
   * The count theorem for one context: it exists exactly when the path is
   * empty or some byte was coded under it, and then its count for `s` is the
   * number of those bytes equal to `s`, plus the seed 1 for the escape symbol.
   */
  predicate CountsAgree(root: Node, input: seq<Byte>, m: nat, path: seq<nat>, s: nat) {
    && (NodeAt(root, path).Some? <==> Seen(input, m, path))
    && (NodeAt(root, path).Some? ==>
      && |NodeAt(root, path).value.freqs| == SymbolLimit
      && s < SymbolLimit
      && NodeAt(root, path).value.freqs[s] == Occurrences(input, m, path, s) + (if s == EscapeSymbol then 1 else 0))
  }

  /** One byte keeps the count theorem. */
  lemma CountsStep(c: Coder, et: Int32, ct: Int32, m: Int32, z: Int32, prefix: seq<Byte>, b: Byte, path: seq<nat>, s: nat)
    requires m >= 0 && s < SymbolLimit && RunState(c, et, ct, m, z, prefix)
    requires CountsAgree(c.model.root.value, prefix, m, path, s)
    ensures Step(c, b).Ok?
    ensures CountsAgree(Step(c, b).value.model.root.value, prefix + [b], m, path, s)
  {
    StepKeepsRunState(c, et, ct, m, z, prefix, b);
    var input := prefix + [b];
    assert input[..|input| - 1] == prefix;
    assert Step(c, b).value.model == IncrementContexts(c.model, c.history, b).value;
    IncrementEffect(c.model, c.history, b, path);
    if !Seen(prefix, m, path) {
      UnseenHasNoOccurrences(prefix, m, path, s);
    }
  }

  /**
   * After coding `input`, a context exists exactly for the empty path and for
   * the paths some byte was coded under, and its count for each symbol is the
   * number of times that symbol followed the path in the input, plus the seed
   * 1 for the escape symbol.
   */
  lemma {:induction false} CountsMatchOccurrences(et: Int32, ct: Int32, m: Int32, z: Int32, input: seq<Byte>, path: seq<nat>, s: nat)
    requires m >= 0 && s < SymbolLimit
    ensures Process(Start(et, ct, m, z), input).Ok?
    ensures Process(Start(et, ct, m, z), input).value.model.root.Some?
    ensures CountsAgree(Process(Start(et, ct, m, z), input).value.model.root.value, input, m, path, s)
    decreases |input|
  {
    if input == [] {
      SeededHasNoDescendants(m >= 1, path);
    } else {
      var prefix := input[..|input| - 1];
      var b := input[|input| - 1];
      assert prefix + [b] == input;
      CountsMatchOccurrences(et, ct, m, z, prefix, path, s);
      RunInvariant(et, ct, m, z, prefix);
      CountsStep(Process(Start(et, ct, m, z), prefix).value, et, ct, m, z, prefix, b, path, s);
    }
  }

  /** Appending the end-of-stream writes to a run's trace keeps every write codable and the end unique. */
  lemma AppendEndOfStream(t: seq<Write>, eof: seq<Write>)
    requires forall i :: 0 <= i < |t| ==> Codable(t[i]) && (t[i].symbol == EscapeSymbol ==> t[i].order >= 0)
    requires |eof| >= 1 && eof[|eof| - 1] == Write(-1, OrderMinus1Freqs(), EscapeSymbol)
    requires forall i :: 0 <= i < |eof| ==> Codable(eof[i])
    requires forall i :: 0 <= i < |eof| - 1 ==> eof[i].order >= 0
    ensures var trace := t + eof;
      && trace[|trace| - 1] == Write(-1, OrderMinus1Freqs(), EscapeSymbol)
      && (forall i :: 0 <= i < |trace| - 1 ==> !(trace[i].order == -1 && trace[i].symbol == EscapeSymbol))
      && (forall i :: 0 <= i < |trace| ==> Codable(trace[i]))
  {
    var trace := t + eof;
    forall i | 0 <= i < |trace|
      ensures Codable(trace[i])
      ensures i < |trace| - 1 ==> !(trace[i].order == -1 && trace[i].symbol == EscapeSymbol)
    {
      if i >= |t| {
        assert trace[i] == eof[i - |t|];
      } else {
        assert trace[i] == t[i];
      }
    }
  }

  /** From the run state, coding the end of stream never faults: escapes at orders >= 0, then symbol 256 in the flat table. */
  lemma EndOfStreamCodes(c: Coder, et: Int32, ct: Int32, m: Int32, z: Int32, input: seq<Byte>)
    requires m >= 0 && RunState(c, et, ct, m, z, input)
    ensures EncodeSymbol(c.model, c.history, EscapeSymbol).Ok?
    ensures var eof := EncodeSymbol(c.model, c.history, EscapeSymbol).value;
      && 1 <= |eof| <= m + 2
      && eof[|eof| - 1] == Write(-1, OrderMinus1Freqs(), EscapeSymbol)
      && (forall i :: 0 <= i < |eof| ==> Codable(eof[i]))
      && (forall i :: 0 <= i < |eof| - 1 ==> eof[i].order >= 0)
  {
    RecentBytes(input, m);
    EncodeOnValidModel(c.model, c.history, EscapeSymbol);
  }

  /**
   * A whole compression never faults; the stream ends with the end-of-stream
   * symbol coded at order -1, which appears nowhere else; every write is
   * codable; and there are at most m + 2 writes per byte and for the end.
   */
  lemma CompressTrace(et: Int32, ct: Int32, m: Int32, z: Int32, input: seq<Byte>)
    requires m >= 0
    ensures Compress(et, ct, m, z, input).Ok?
    ensures var trace := Compress(et, ct, m, z, input).value;
      && |trace| >= 1
      && trace[|trace| - 1] == Write(-1, OrderMinus1Freqs(), EscapeSymbol)
      && |trace| <= (|input| + 1) * (m + 2)
    ensures var trace := Compress(et, ct, m, z, input).value;
      forall i :: 0 <= i < |trace| - 1 ==> !(trace[i].order == -1 && trace[i].symbol == EscapeSymbol)
    ensures var trace := Compress(et, ct, m, z, input).value;
      forall i :: 0 <= i < |trace| ==> Codable(trace[i])
  {
    RunInvariant(et, ct, m, z, input);
    var c := Process(Start(et, ct, m, z), input).value;
    EndOfStreamCodes(c, et, ct, m, z, input);
    var eof := EncodeSymbol(c.model, c.history, EscapeSymbol).value;
    assert Compress(et, ct, m, z, input) == Ok(c.trace + eof);
    AppendEndOfStream(c.trace, eof);
    assert |c.trace + eof| <= (|input| + 1) * (m + 2) by {
      assert |input| * (m + 2) + (m + 2) == (|input| + 1) * (m + 2);
    }
  }

  /** The coder state with the unused configuration fields replaced. */
  function Reconfigured(c: Coder, et: Int32, ct: Int32, z: Int32): (r: Coder)
    ensures r.history == c.history && r.trace == c.trace
    ensures r.model.root == c.model.root && r.model.order == c.model.order
  {
    c.(model := c.model.(extensibility := et, credibility := ct, nodeLimit := z))
  }

  lemma StepIgnoresConfig(c: Coder, b: Byte, et: Int32, ct: Int32, z: Int32)
    requires c.model.root.Some? && Sized(c.model.root.value)
    ensures Step(Reconfigured(c, et, ct, z), b)
      == (if Step(c, b).Ok? then Ok(Reconfigured(Step(c, b).value, et, ct, z)) else Step(c, b))
  {
    var c' := Reconfigured(c, et, ct, z);
    assert EncodeSymbol(c'.model, c'.history, b) == EncodeSymbol(c.model, c.history, b);
  }

  lemma {:induction false} ProcessIgnoresConfig(c: Coder, input: seq<Byte>, et: Int32, ct: Int32, z: Int32)
    requires c.model.root.Some? && Sized(c.model.root.value)
    ensures Process(Reconfigured(c, et, ct, z), input)
      == (if Process(c, input).Ok? then Ok(Reconfigured(Process(c, input).value, et, ct, z)) else Process(c, input))
    decreases |input|
  {
    if input != [] {
      var prefix := input[..|input| - 1];
      ProcessIgnoresConfig(c, prefix, et, ct, z);
      if Process(c, prefix).Ok? {
        StepIgnoresConfig(Process(c, prefix).value, input[|input| - 1], et, ct, z);
      }
    }
  }

  /**
   * The extensibility, credibility and node-limit settings are stored but
   * never read: the coded stream depends only on the order and the input.
   */
  lemma ConfigIrrelevant(et: Int32, ct: Int32, z: Int32, et': Int32, ct': Int32, z': Int32, m: Int32, input: seq<Byte>)
    requires m >= 0
    ensures Compress(et, ct, m, z, input) == Compress(et', ct', m, z', input)
  {
    var start := Start(et, ct, m, z);
    assert Start(et', ct', m, z') == Reconfigured(start, et', ct', z');
    ProcessIgnoresConfig(start, input, et', ct', z');
    RunInvariant(et, ct, m, z, input);
    var c := Process(start, input).value;
    var c' := Reconfigured(c, et', ct', z');
    assert EncodeSymbol(c'.model, c'.history, EscapeSymbol) == EncodeSymbol(c.model, c.history, EscapeSymbol);
  }

  /** An empty input codes the end-of-stream symbol as an escape from the root, then at order -1. */
  lemma EmptyInputTrace(et: Int32, ct: Int32, m: Int32, z: Int32)
    requires m >= 0
    ensures Compress(et, ct, m, z, []) == Ok([Write(0, SeedTable(), EscapeSymbol), Write(-1, OrderMinus1Freqs(), EscapeSymbol)])
  {
    var c := Start(et, ct, m, z);
    var lookups := ContextLookups(c.model.root.value, []);
    assert lookups == [Ok(Some(Seeded(m >= 1)))];
    assert WalkFrom(lookups, EscapeSymbol, -1) == Ok([Write(-1, OrderMinus1Freqs(), EscapeSymbol)]);
    assert FullTables(lookups);
    assert Found(lookups, 0) && !Hits(lookups[0].value.value, EscapeSymbol);
    assert lookups[0].value.value.freqs == SeedTable();
    assert WalkFrom(lookups, EscapeSymbol, 0).Ok?;
    WalkEscapesAtMiss(lookups, EscapeSymbol, 0);
    var w0 := Write(0, SeedTable(), EscapeSymbol);
    var w1 := Write(-1, OrderMinus1Freqs(), EscapeSymbol);
    assert WalkFrom(lookups, EscapeSymbol, 0).value == [w0] + [w1];
    assert [w0] + [w1] == [w0, w1];
    assert WalkFrom(lookups, EscapeSymbol, 0)
      == Ok([Write(0, SeedTable(), EscapeSymbol), Write(-1, OrderMinus1Freqs(), EscapeSymbol)]);
    assert EncodeSymbol(c.model, c.history, EscapeSymbol) == WalkFrom(lookups, EscapeSymbol, 0);
    assert Process(c, []) == Ok(c);
    assert c.trace + [w0, w1] == [w0, w1];
  }

  /** The contexts the four bytes of "ABAB" are coded under at order 1, and what follows them. */
  lemma AbabOccurrences()
    ensures var input: seq<Byte> := [65, 66, 65, 66];
      && Occurrences(input, 1, [], 65) == 2 && Occurrences(input, 1, [], 66) == 2
      && Occurrences(input, 1, [], EscapeSymbol) == 0
      && Seen(input, 1, [65]) && Occurrences(input, 1, [65], 66) == 2
      && Seen(input, 1, [66]) && Occurrences(input, 1, [66], 65) == 1
      && !Seen(input, 1, [67])
  {
    var input: seq<Byte> := [65, 66, 65, 66];
    assert input[..3] == [65, 66, 65];
    assert input[..3][..2] == [65, 66];
    assert input[..3][..2][..1] == [65];
    assert input[..3][..2][..1][..0] == [];
    assert Recent([65, 66, 65], 1) == [65];
    assert Recent([65, 66], 1) == [66];
    assert Recent([65], 1) == [65];
    assert Recent([], 1) == [];
  }

  /**
   * "ABAB" at order 1: the root counts A and B twice each, and the context
   * "after A" counts B twice, once for each "AB" in the input.
   */
  lemma AbabCounts(et: Int32, ct: Int32, z: Int32)
    ensures Process(Start(et, ct, 1, z), [65, 66, 65, 66]).Ok?
    ensures var root := Process(Start(et, ct, 1, z), [65, 66, 65, 66]).value.model.root.value;
      && |root.freqs| == SymbolLimit
      && root.freqs[65] == 2 && root.freqs[66] == 2 && root.freqs[EscapeSymbol] == 1
      && NodeAt(root, [65]).Some? && NodeAt(root, [65]).value.freqs[66] == 2
      && NodeAt(root, [66]).Some? && NodeAt(root, [66]).value.freqs[65] == 1
      && NodeAt(root, [67]).None?
  {
    var input: seq<Byte> := [65, 66, 65, 66];
    AbabOccurrences();
    CountsMatchOccurrences(et, ct, 1, z, input, [], 65);
    CountsMatchOccurrences(et, ct, 1, z, input, [], 66);
    CountsMatchOccurrences(et, ct, 1, z, input, [], EscapeSymbol);
    CountsMatchOccurrences(et, ct, 1, z, input, [65], 66);
    CountsMatchOccurrences(et, ct, 1, z, input, [66], 65);
    CountsMatchOccurrences(et, ct, 1, z, input, [67], 0);
  }
}
