/**
 * The escape-coding walk of the compressor. The arithmetic coder is
 * abstracted to the trace of (table, symbol) pairs handed to it; each write
 * also records the context order it was made at.
 */
module EscapeWalk {
  import opened Wrappers
  import opened FrequencyTable
  import opened ContextTree
  import opened TreeFacts

  /** One call of the coder: `symbol` coded against `table`, at context order `order` (-1 for the flat table). */
  datatype Write = Write(order: int, table: Table, symbol: nat)

  /** The order -1 table: every symbol, end of stream included, has count 1. */
  function OrderMinus1Freqs(): (t: Table)
    ensures |t| == SymbolLimit
    ensures forall s :: 0 <= s < SymbolLimit ==> t[s] == 1
  {
    Flat(SymbolLimit)
  }

  /** What the walk finds at one order: a fault, a missing context, or a context. */
  type Lookup = Result<Option<Node>, Fault>

  /**
   * The lookup at each order 0..|history|: entry j follows the newest j
   * history symbols from the root. The walk inspects an entry only when it
   * reaches that order, so a fault at an order below a hit is never raised.
   */
  function ContextLookups(root: Node, history: seq<nat>): (lookups: seq<Lookup>)
    ensures |lookups| == |history| + 1
    ensures forall j :: 0 <= j <= |history| ==> lookups[j] == Find(root, history[..j])
    ensures Sized(root) ==> FullTables(lookups)
  {
    seq(|history| + 1, j requires 0 <= j <= |history| => Find(root, history[..j]))
  }

  /** The context at order `j` was found. */
  predicate Found(lookups: seq<Lookup>, j: int) {
    0 <= j < |lookups| && lookups[j].Ok? && lookups[j].value.Some?
  }

  /** Every context found has a full-sized table. */
  predicate FullTables(lookups: seq<Lookup>) {
    forall j :: 0 <= j < |lookups| && Found(lookups, j) ==> |lookups[j].value.value.freqs| == SymbolLimit
  }

  /**
   * The symbol can be coded in this context: it is a real symbol with a
   * positive count there. The reserved symbol never hits, so end of stream
   * escapes at every context of order >= 0.
   */
  predicate Hits(ctx: Node, symbol: nat) {
    symbol != EscapeSymbol && symbol < |ctx.freqs| && ctx.freqs[symbol] > 0
  }

  /** The coder can code this write: the symbol has a positive count in the table. */
  predicate Codable(w: Write) {
    w.symbol < |w.table| && w.table[w.symbol] > 0
  }

  /** Some write of the trace is made at context order `order`. */
  predicate WritesAt(trace: seq<Write>, order: int) {
    exists i :: 0 <= i < |trace| && trace[i].order == order
  }

  /**
   * The walk from context order `k` down: at an existing context the symbol
   * is written if its count there is positive (and it is not the escape
   * symbol), otherwise an escape is written and the walk goes one order lower;
   * an order whose context is missing writes nothing; below order 0 the symbol
   * is written against the flat table.
   */
  function WalkFrom(lookups: seq<Lookup>, symbol: nat, k: int): (r: Result<seq<Write>, Fault>)
    requires FullTables(lookups) && symbol < SymbolLimit && -1 <= k < |lookups|
    ensures r.Ok? ==> 1 <= |r.value| <= k + 2
    ensures r.Ok? ==> r.value[0].order <= k
    ensures r.Ok? ==> var last := r.value[|r.value| - 1];
      && last.symbol == symbol
      && last.order >= -1
      && (last.order == -1 ==> last.table == OrderMinus1Freqs())
      && (last.order >= 0 ==> symbol != EscapeSymbol && |last.table| == SymbolLimit && last.table[symbol] > 0)
    decreases k + 1
  {
    if k == -1 then Ok([Write(-1, OrderMinus1Freqs(), symbol)])
    else
      var found :- lookups[k];
      match found
      case None => WalkFrom(lookups, symbol, k - 1)
      case Some(ctx) =>
        assert Found(lookups, k);
        if Hits(ctx, symbol) then
          Ok([Write(k, ctx.freqs, symbol)])
        else
          var rest :- WalkFrom(lookups, symbol, k - 1);
          Ok([Write(k, ctx.freqs, EscapeSymbol)] + rest)
  }

  /** Below order 0 the walk codes the symbol in the flat table. */
  lemma WalkAtBottom(lookups: seq<Lookup>, symbol: nat)
    requires FullTables(lookups) && symbol < SymbolLimit
    ensures WalkFrom(lookups, symbol, -1) == Ok([Write(-1, OrderMinus1Freqs(), symbol)])
  {
  }

  /** A missing context at order `k` is skipped without a write. */
  lemma WalkSkipsMissing(lookups: seq<Lookup>, symbol: nat, k: int)
    requires FullTables(lookups) && symbol < SymbolLimit && 0 <= k < |lookups|
    requires WalkFrom(lookups, symbol, k).Ok? && !Found(lookups, k)
    ensures WalkFrom(lookups, symbol, k) == WalkFrom(lookups, symbol, k - 1)
  {
  }

  /** A context at order `k` where the symbol hits codes it there, and the walk ends. */
  lemma WalkStopsAtHit(lookups: seq<Lookup>, symbol: nat, k: int)
    requires FullTables(lookups) && symbol < SymbolLimit && 0 <= k < |lookups|
    requires Found(lookups, k) && Hits(lookups[k].value.value, symbol)
    ensures WalkFrom(lookups, symbol, k) == Ok([Write(k, lookups[k].value.value.freqs, symbol)])
  {
  }

  /** A context at order `k` where the symbol misses gets an escape, and the walk goes on below. */
  lemma WalkEscapesAtMiss(lookups: seq<Lookup>, symbol: nat, k: int)
    requires FullTables(lookups) && symbol < SymbolLimit && 0 <= k < |lookups|
    requires WalkFrom(lookups, symbol, k).Ok?
    requires Found(lookups, k) && !Hits(lookups[k].value.value, symbol)
    ensures WalkFrom(lookups, symbol, k - 1).Ok?
    ensures WalkFrom(lookups, symbol, k).value
      == [Write(k, lookups[k].value.value.freqs, EscapeSymbol)] + WalkFrom(lookups, symbol, k - 1).value
  {
  }

  /**
   * One step of the walk at an existing context of order `k`: the walk codes
   * the symbol there and stops exactly when the symbol hits; otherwise it
   * writes an escape there and continues at order `k - 1`.
   */
  lemma WalkAtContext(lookups: seq<Lookup>, symbol: nat, k: int)
    requires FullTables(lookups) && symbol < SymbolLimit && 0 <= k < |lookups|
    requires Found(lookups, k)
    ensures var ctx := lookups[k].value.value;
      Hits(ctx, symbol) <==> WalkFrom(lookups, symbol, k) == Ok([Write(k, ctx.freqs, symbol)])
    ensures var ctx := lookups[k].value.value;
      !Hits(ctx, symbol) ==>
        && (WalkFrom(lookups, symbol, k).Ok? <==> WalkFrom(lookups, symbol, k - 1).Ok?)
        && (WalkFrom(lookups, symbol, k).Ok? ==>
              WalkFrom(lookups, symbol, k).value == [Write(k, ctx.freqs, EscapeSymbol)] + WalkFrom(lookups, symbol, k - 1).value)
  {
    var ctx := lookups[k].value.value;
    if Hits(ctx, symbol) {
      WalkStopsAtHit(lookups, symbol, k);
    } else if WalkFrom(lookups, symbol, k).Ok? {
      WalkEscapesAtMiss(lookups, symbol, k);
    }
  }

  /** Every write of the walk before the last is an escape at an order >= 0, and the orders strictly decrease. */
  lemma {:induction false} WalkTraceShape(lookups: seq<Lookup>, symbol: nat, k: int)
    requires FullTables(lookups) && symbol < SymbolLimit && -1 <= k < |lookups|
    requires WalkFrom(lookups, symbol, k).Ok?
    ensures var trace := WalkFrom(lookups, symbol, k).value;
      forall i :: 0 <= i < |trace| - 1 ==> trace[i].symbol == EscapeSymbol && trace[i].order >= 0
    ensures var trace := WalkFrom(lookups, symbol, k).value;
      forall i :: 0 <= i < |trace| - 1 ==> trace[i].order > trace[i + 1].order
    decreases k + 1
  {
    if k >= 0 {
      if !Found(lookups, k) {
        WalkSkipsMissing(lookups, symbol, k);
        WalkTraceShape(lookups, symbol, k - 1);
      } else if !Hits(lookups[k].value.value, symbol) {
        WalkEscapesAtMiss(lookups, symbol, k);
        WalkTraceShape(lookups, symbol, k - 1);
        var trace := WalkFrom(lookups, symbol, k).value;
        var rest := WalkFrom(lookups, symbol, k - 1).value;
        forall i | 0 <= i < |trace| - 1
          ensures trace[i].symbol == EscapeSymbol && trace[i].order >= 0
          ensures trace[i].order > trace[i + 1].order
        {
          assert trace[i + 1] == rest[i];
          if i > 0 {
            assert trace[i] == rest[i - 1];
          }
        }
      } else {
        WalkStopsAtHit(lookups, symbol, k);
      }
    } else {
      WalkAtBottom(lookups, symbol);
    }
  }

  /**
   * A write made at an order >= 0 uses the table of the context found at that
   * order, and if it is an escape (`escaped`), the symbol misses there.
   */
  predicate WriteMatches(lookups: seq<Lookup>, symbol: nat, w: Write, escaped: bool) {
    && Found(lookups, w.order)
    && w.table == lookups[w.order].value.value.freqs
    && (escaped ==> !Hits(lookups[w.order].value.value, symbol))
  }

  /** Every write at an order >= 0 matches its context; all but the last are escapes. */
  predicate WritesMatch(lookups: seq<Lookup>, symbol: nat, trace: seq<Write>) {
    forall i :: 0 <= i < |trace| && trace[i].order >= 0 ==> WriteMatches(lookups, symbol, trace[i], i < |trace| - 1)
  }

  /** Prefixing a matching escape keeps a trace matching. */
  lemma WritesMatchCons(lookups: seq<Lookup>, symbol: nat, w: Write, rest: seq<Write>)
    requires |rest| >= 1 && WriteMatches(lookups, symbol, w, true)
    requires WritesMatch(lookups, symbol, rest)
    ensures WritesMatch(lookups, symbol, [w] + rest)
  {
    var trace := [w] + rest;
    forall i | 0 <= i < |trace| && trace[i].order >= 0
      ensures WriteMatches(lookups, symbol, trace[i], i < |trace| - 1)
    {
      if i > 0 {
        assert trace[i] == rest[i - 1];
      }
    }
  }

  /**
   * Every write at an order >= 0 is made against the table of the context
   * found at that order, and every escape written there is a miss.
   */
  lemma {:induction false} WalkWritesAtContexts(lookups: seq<Lookup>, symbol: nat, k: int)
    requires FullTables(lookups) && symbol < SymbolLimit && -1 <= k < |lookups|
    requires WalkFrom(lookups, symbol, k).Ok?
    ensures WritesMatch(lookups, symbol, WalkFrom(lookups, symbol, k).value)
    decreases k + 1
  {
    if k >= 0 {
      if !Found(lookups, k) {
        WalkSkipsMissing(lookups, symbol, k);
        WalkWritesAtContexts(lookups, symbol, k - 1);
      } else if !Hits(lookups[k].value.value, symbol) {
        WalkEscapesAtMiss(lookups, symbol, k);
        WalkWritesAtContexts(lookups, symbol, k - 1);
        var w := Write(k, lookups[k].value.value.freqs, EscapeSymbol);
        WritesMatchCons(lookups, symbol, w, WalkFrom(lookups, symbol, k - 1).value);
      } else {
        WalkStopsAtHit(lookups, symbol, k);
        var trace := WalkFrom(lookups, symbol, k).value;
        assert WriteMatches(lookups, symbol, trace[0], false);
      }
    } else {
      WalkAtBottom(lookups, symbol);
    }
  }

  /** A write at an order in the tail of a trace is a write at that order in the trace. */
  lemma WritesAtCons(w: Write, rest: seq<Write>, j: int)
    requires WritesAt(rest, j)
    ensures WritesAt([w] + rest, j)
  {
    var i :| 0 <= i < |rest| && rest[i].order == j;
    assert ([w] + rest)[i + 1] == rest[i];
  }

  /** The trace writes at every order in (its last order, k] whose context was found. */
  predicate VisitsFound(lookups: seq<Lookup>, trace: seq<Write>, k: int) {
    && |trace| >= 1
    && forall j :: trace[|trace| - 1].order < j <= k && Found(lookups, j) ==> WritesAt(trace, j)
  }

  /** Prefixing a write at order k to a trace that visits every found order below k gives one that visits k too. */
  lemma VisitsCons(lookups: seq<Lookup>, w: Write, rest: seq<Write>, k: int)
    requires w.order == k && VisitsFound(lookups, rest, k - 1)
    ensures VisitsFound(lookups, [w] + rest, k)
  {
    var trace := [w] + rest;
    assert trace[|trace| - 1] == rest[|rest| - 1];
    forall j | trace[|trace| - 1].order < j <= k && Found(lookups, j)
      ensures WritesAt(trace, j)
    {
      if j == k {
        assert trace[0].order == k;
      } else {
        WritesAtCons(w, rest, j);
      }
    }
  }

  /**
   * The walk skips no existing context: every order above the one it stopped
   * at whose context was found was written at.
   */
  lemma {:induction false} WalkVisitsFoundContexts(lookups: seq<Lookup>, symbol: nat, k: int)
    requires FullTables(lookups) && symbol < SymbolLimit && -1 <= k < |lookups|
    requires WalkFrom(lookups, symbol, k).Ok?
    ensures VisitsFound(lookups, WalkFrom(lookups, symbol, k).value, k)
    decreases k + 1
  {
    if k >= 0 {
      if !Found(lookups, k) {
        WalkSkipsMissing(lookups, symbol, k);
        WalkVisitsFoundContexts(lookups, symbol, k - 1);
      } else if !Hits(lookups[k].value.value, symbol) {
        WalkEscapesAtMiss(lookups, symbol, k);
        WalkVisitsFoundContexts(lookups, symbol, k - 1);
        var rest := WalkFrom(lookups, symbol, k - 1).value;
        VisitsCons(lookups, Write(k, lookups[k].value.value.freqs, EscapeSymbol), rest, k);
      } else {
        WalkStopsAtHit(lookups, symbol, k);
      }
    } else {
      WalkAtBottom(lookups, symbol);
    }
  }

  /** The walk faults only if a lookup it reaches faulted. */
  lemma {:induction false} WalkFaultsOnlyOnLookups(lookups: seq<Lookup>, symbol: nat, k: int)
    requires FullTables(lookups) && symbol < SymbolLimit && -1 <= k < |lookups|
    requires forall j :: 0 <= j <= k ==> lookups[j].Ok?
    ensures WalkFrom(lookups, symbol, k).Ok?
    decreases k + 1
  {
    if k >= 0 {
      WalkFaultsOnlyOnLookups(lookups, symbol, k - 1);
    }
  }

  /** Adjacent orders decreasing means all orders decreasing. */
  lemma {:induction false} WritesDescend(trace: seq<Write>)
    requires forall i :: 0 <= i < |trace| - 1 ==> trace[i].order > trace[i + 1].order
    ensures forall i, j :: 0 <= i < j < |trace| ==> trace[i].order > trace[j].order
  {
    if |trace| > 1 {
      var tail := trace[1..];
      assert forall j :: 0 <= j < |tail| - 1 ==> tail[j].order > tail[j + 1].order by {
        assert forall j :: 0 <= j < |tail| ==> tail[j] == trace[j + 1];
      }
      WritesDescend(tail);
      forall i, j | 0 <= i < j < |trace|
        ensures trace[i].order > trace[j].order
      {
        assert trace[j] == tail[j - 1];
        if i == 0 {
          assert trace[0].order > trace[1].order && trace[1] == tail[0];
        } else {
          assert trace[i] == tail[i - 1];
        }
      }
    }
  }

  /**
   * Codes one symbol: the walk from the order equal to the history length.
   * At most |history| + 2 writes; every write but the last is an escape at an
   * order >= 0; the last write carries the
   * symbol, at a context where it has a positive count or at order -1.
   */
  function EncodeSymbol(md: Model, history: seq<nat>, symbol: nat): (r: Result<seq<Write>, Fault>)
    requires md.root.Some? && Sized(md.root.value) && symbol < SymbolLimit
    ensures r.Ok? ==> 1 <= |r.value| <= |history| + 2
    ensures r.Ok? ==> forall i :: 0 <= i < |r.value| - 1 ==> r.value[i].symbol == EscapeSymbol && r.value[i].order >= 0
    ensures r.Ok? ==> var last := r.value[|r.value| - 1];
      && last.symbol == symbol
      && last.order >= -1
      && (last.order == -1 ==> last.table == OrderMinus1Freqs())
      && (last.order >= 0 ==> symbol != EscapeSymbol && |last.table| == SymbolLimit && last.table[symbol] > 0)
  {
    var lookups := ContextLookups(md.root.value, history);
    var r := WalkFrom(lookups, symbol, |history|);
    if r.Ok? then
      WalkTraceShape(lookups, symbol, |history|);
      r
    else r
  }

  /** The walk's writes are made at strictly decreasing orders: no context is written twice. */
  lemma EncodeOrdersDecrease(md: Model, history: seq<nat>, symbol: nat)
    requires md.root.Some? && Sized(md.root.value) && symbol < SymbolLimit
    requires EncodeSymbol(md, history, symbol).Ok?
    ensures var trace := EncodeSymbol(md, history, symbol).value;
      forall i, j :: 0 <= i < j < |trace| ==> trace[i].order > trace[j].order
  {
    var lookups := ContextLookups(md.root.value, history);
    WalkTraceShape(lookups, symbol, |history|);
    WritesDescend(EncodeSymbol(md, history, symbol).value);
  }

  /** Every write at an order o >= 0 uses the existing context of the newest o history symbols, escaping only at misses. */
  lemma EncodeWritesAtContexts(md: Model, history: seq<nat>, symbol: nat)
    requires md.root.Some? && Sized(md.root.value) && symbol < SymbolLimit
    requires EncodeSymbol(md, history, symbol).Ok?
    ensures var trace := EncodeSymbol(md, history, symbol).value;
      forall i :: 0 <= i < |trace| && trace[i].order >= 0 ==>
        && trace[i].order <= |history|
        && NodeAt(md.root.value, history[..trace[i].order]).Some?
        && trace[i].table == NodeAt(md.root.value, history[..trace[i].order]).value.freqs
        && (i < |trace| - 1 ==> !Hits(NodeAt(md.root.value, history[..trace[i].order]).value, symbol))
  {
    var lookups := ContextLookups(md.root.value, history);
    WalkWritesAtContexts(lookups, symbol, |history|);
    var trace := EncodeSymbol(md, history, symbol).value;
    assert trace == WalkFrom(lookups, symbol, |history|).value;
    forall i | 0 <= i < |trace| && trace[i].order >= 0
      ensures trace[i].order <= |history|
      ensures WriteMatches(lookups, symbol, trace[i], i < |trace| - 1)
      ensures lookups[trace[i].order] == Ok(NodeAt(md.root.value, history[..trace[i].order]))
    {
      assert WriteMatches(lookups, symbol, trace[i], i < |trace| - 1);
    }
  }

  /** Every existing context above the order the walk stops at is written at. */
  lemma EncodeVisitsContexts(md: Model, history: seq<nat>, symbol: nat)
    requires md.root.Some? && Sized(md.root.value) && symbol < SymbolLimit
    requires EncodeSymbol(md, history, symbol).Ok?
    ensures var trace := EncodeSymbol(md, history, symbol).value;
      forall j :: trace[|trace| - 1].order < j <= |history| && NodeAt(md.root.value, history[..j]).Some? ==>
        WritesAt(trace, j)
  {
    var lookups := ContextLookups(md.root.value, history);
    WalkVisitsFoundContexts(lookups, symbol, |history|);
    var trace := EncodeSymbol(md, history, symbol).value;
    forall j | trace[|trace| - 1].order < j <= |history| && NodeAt(md.root.value, history[..j]).Some?
      ensures WritesAt(trace, j)
    {
      assert lookups[j] == Find(md.root.value, history[..j]);
      assert Found(lookups, j);
    }
  }

  /** On a valid model, with a history of alphabet symbols no longer than the order, the walk never faults. */
  lemma EncodeNeverFaults(md: Model, history: seq<nat>, symbol: nat)
    requires Valid(md) && md.order >= 0 && symbol < SymbolLimit
    requires |history| <= md.order && forall i :: 0 <= i < |history| ==> history[i] < SymbolLimit
    ensures EncodeSymbol(md, history, symbol).Ok?
  {
    var root := md.root.value;
    var lookups := ContextLookups(root, history);
    forall j | 0 <= j <= |history|
      ensures lookups[j].Ok?
    {
      FindNeverFaults(root, 0, md.order, history[..j]);
    }
    WalkFaultsOnlyOnLookups(lookups, symbol, |history|);
  }

  /**
   * On a valid model, with a history of alphabet symbols no longer than the
   * order, the walk never faults and every symbol it hands to the coder has a
   * positive count in the table it is coded against.
   */
  lemma EncodeOnValidModel(md: Model, history: seq<nat>, symbol: nat)
    requires Valid(md) && md.order >= 0 && symbol < SymbolLimit
    requires |history| <= md.order && forall i :: 0 <= i < |history| ==> history[i] < SymbolLimit
    ensures EncodeSymbol(md, history, symbol).Ok?
    ensures var trace := EncodeSymbol(md, history, symbol).value;
      forall i :: 0 <= i < |trace| ==> Codable(trace[i])
  {
    var root := md.root.value;
    EncodeNeverFaults(md, history, symbol);
    EncodeWritesAtContexts(md, history, symbol);
    var trace := EncodeSymbol(md, history, symbol).value;
    forall i | 0 <= i < |trace|
      ensures Codable(trace[i])
    {
      if i < |trace| - 1 {
        var o := trace[i].order;
        assert trace[i].symbol == EscapeSymbol && o >= 0;
        ContextDepthBounded(root, 0, md.order, history[..o]);
      }
    }
  }

  /**
   * Coding the end of stream: the end-of-stream symbol is never coded in a
   * context of order >= 0, so every existing context along the history gets
   * an escape (and only those), and the last write codes it at order -1.
   */
  lemma EncodeEndOfStream(md: Model, history: seq<nat>)
    requires md.root.Some? && Sized(md.root.value)
    requires EncodeSymbol(md, history, EscapeSymbol).Ok?
    ensures var trace := EncodeSymbol(md, history, EscapeSymbol).value;
      trace[|trace| - 1] == Write(-1, OrderMinus1Freqs(), EscapeSymbol)
    ensures var trace := EncodeSymbol(md, history, EscapeSymbol).value;
      forall j :: 0 <= j <= |history| ==> (WritesAt(trace, j) <==> NodeAt(md.root.value, history[..j]).Some?)
  {
    EncodeWritesAtContexts(md, history, EscapeSymbol);
    EncodeVisitsContexts(md, history, EscapeSymbol);
  }
}
