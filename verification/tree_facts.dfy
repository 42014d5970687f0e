/**
 * Properties of the context tree: the shape invariant bounds the depth and
 * keeps every escape count positive, and `IncrementContexts` touches exactly
 * the contexts along the history, creating the missing ones seeded.
 */
module TreeFacts {
  import opened Wrappers
  import opened FrequencyTable
  import opened ContextTree

  /** The table a context along an update path starts from: its own if it exists, the seed otherwise. */
  function BaseTable(n: Node, path: seq<nat>): (t: Table)
    ensures Sized(n) ==> |t| == SymbolLimit
  {
    match NodeAt(n, path)
    case Some(c) => c.freqs
    case None => SeedTable()
  }

  lemma {:induction false} ShapedIsSized(n: Node, depth: nat, order: int)
    requires Shaped(n, depth, order)
    ensures Sized(n)
    decreases n
  {
    forall i | 0 <= i < |n.subcontexts| && n.subcontexts[i].Some?
      ensures Sized(n.subcontexts[i].value)
    {
      ShapedIsSized(n.subcontexts[i].value, depth + 1, order);
    }
  }

  /**
   * Every existing context below a shaped node is shaped at its own depth, so
   * no context lies deeper than the order and every context gives escape a
   * positive count.
   */
  lemma {:induction false} ContextDepthBounded(n: Node, depth: nat, order: int, path: seq<nat>)
    requires Shaped(n, depth, order)
    requires NodeAt(n, path).Some?
    ensures Shaped(NodeAt(n, path).value, depth + |path|, order)
    ensures path == [] || depth + |path| <= order
    ensures NodeAt(n, path).value.freqs[EscapeSymbol] > 0
    decreases |path|
  {
    if path != [] {
      ContextDepthBounded(n.subcontexts[path[0]].value, depth + 1, order, path[1..]);
    }
  }

  /** On a shaped tree, a lookup no longer than the order over alphabet symbols never faults. */
  lemma {:induction false} FindNeverFaults(n: Node, depth: nat, order: int, path: seq<nat>)
    requires Shaped(n, depth, order)
    requires depth + |path| <= order
    requires forall i :: 0 <= i < |path| ==> path[i] < SymbolLimit
    ensures Find(n, path) == Ok(NodeAt(n, path))
    decreases |path|
  {
    if path != [] && n.subcontexts[path[0]].Some? {
      FindNeverFaults(n.subcontexts[path[0]].value, depth + 1, order, path[1..]);
    }
  }

  /** Below a freshly seeded context only the context itself exists. */
  lemma SeededHasNoDescendants(hasSubctx: bool, path: seq<nat>)
    ensures NodeAt(Seeded(hasSubctx), path) == (if path == [] then Some(Seeded(hasSubctx)) else None)
  {
  }

  /**
   * The effect of one update on every context: a context along `rest`
   * exists afterwards and holds its previous table, or the seed if it was just
   * created, with one more `symbol`; every other context is untouched.
   */
  lemma {:induction false} DescendEffect(ctx: Node, rest: seq<nat>, depth: nat, order: Int32, symbol: nat, path: seq<nat>)
    requires Sized(ctx) && symbol < SymbolLimit
    requires Descend(ctx, rest, depth, order, symbol).Ok?
    ensures path <= rest ==>
      && NodeAt(Descend(ctx, rest, depth, order, symbol).value, path).Some?
      && NodeAt(Descend(ctx, rest, depth, order, symbol).value, path).value.freqs == Increment(BaseTable(ctx, path), symbol)
    ensures !(path <= rest) ==>
      NodeAt(Descend(ctx, rest, depth, order, symbol).value, path) == NodeAt(ctx, path)
    decreases |rest|
  {
    var here := ctx.(freqs := Increment(ctx.freqs, symbol));
    var updated := Descend(ctx, rest, depth, order, symbol).value;
    if rest == [] {
      assert updated == here;
      if path != [] {
        assert NodeAt(here, path) == NodeAt(ctx, path);
      }
    } else if path != [] {
      var child := match here.subcontexts[rest[0]]
        case Some(c) => c
        case None => Seeded(depth + 1 < AsUnsigned(order));
      var child' := Descend(child, rest[1..], depth + 1, order, symbol).value;
      assert updated == here.(subcontexts := here.subcontexts[rest[0] := Some(child')]);
      if path[0] == rest[0] {
        DescendEffect(child, rest[1..], depth + 1, order, symbol, path[1..]);
        assert path <= rest <==> path[1..] <= rest[1..];
        assert NodeAt(updated, path) == NodeAt(child', path[1..]);
        if ctx.subcontexts[rest[0]].None? {
          SeededHasNoDescendants(depth + 1 < AsUnsigned(order), path[1..]);
        } else {
          assert NodeAt(ctx, path) == NodeAt(child, path[1..]);
        }
      } else {
        assert !(path <= rest);
        assert NodeAt(updated, path) == NodeAt(ctx, path);
      }
    }
  }

  /** An update of a shaped tree keeps it shaped: a context created at depth d gets child slots exactly when d < order. */
  lemma {:induction false} DescendKeepsShape(ctx: Node, rest: seq<nat>, depth: nat, order: Int32, symbol: nat)
    requires Shaped(ctx, depth, order) && order >= 0
    requires Sized(ctx) && symbol < SymbolLimit
    requires Descend(ctx, rest, depth, order, symbol).Ok?
    ensures Shaped(Descend(ctx, rest, depth, order, symbol).value, depth, order)
    decreases |rest|
  {
    if rest != [] {
      var here := ctx.(freqs := Increment(ctx.freqs, symbol));
      var child := match here.subcontexts[rest[0]]
        case Some(c) => c
        case None => Seeded(depth + 1 < AsUnsigned(order));
      assert Shaped(child, depth + 1, order);
      ShapedIsSized(child, depth + 1, order);
      DescendKeepsShape(child, rest[1..], depth + 1, order, symbol);
    }
  }

  /**
   * On a shaped tree, an update along a history no longer than the order
   * fails exactly when some history symbol lies outside the alphabet, and
   * then with an out-of-range fault.
   */
  lemma {:induction false} DescendFaults(ctx: Node, rest: seq<nat>, depth: nat, order: Int32, symbol: nat)
    requires Shaped(ctx, depth, order) && order >= 0 && depth + |rest| <= order
    requires Sized(ctx) && symbol < SymbolLimit
    ensures Descend(ctx, rest, depth, order, symbol).Ok? <==> forall i :: 0 <= i < |rest| ==> rest[i] < SymbolLimit
    ensures Descend(ctx, rest, depth, order, symbol).Err? ==> Descend(ctx, rest, depth, order, symbol).error == OutOfRange
    decreases |rest|
  {
    if rest != [] && rest[0] < SymbolLimit {
      var here := ctx.(freqs := Increment(ctx.freqs, symbol));
      var child := match here.subcontexts[rest[0]]
        case Some(c) => c
        case None => Seeded(depth + 1 < AsUnsigned(order));
      assert Shaped(child, depth + 1, order);
      ShapedIsSized(child, depth + 1, order);
      DescendFaults(child, rest[1..], depth + 1, order, symbol);
      assert forall i :: 1 <= i < |rest| ==> rest[i] == rest[1..][i - 1];
    }
  }

  /**
   * `IncrementContexts` on a valid model with a history no longer than the
   * order: it fails exactly when a history symbol is outside the alphabet
   * (out of range), and otherwise the model stays valid.
   */
  lemma IncrementOutcome(md: Model, history: seq<nat>, symbol: nat)
    requires Valid(md) && md.order >= 0
    requires |history| <= md.order && symbol < SymbolLimit
    ensures IncrementContexts(md, history, symbol).Ok? <==> forall i :: 0 <= i < |history| ==> history[i] < SymbolLimit
    ensures IncrementContexts(md, history, symbol).Err? ==> IncrementContexts(md, history, symbol).error == OutOfRange
    ensures IncrementContexts(md, history, symbol).Ok? ==> Valid(IncrementContexts(md, history, symbol).value)
  {
    DescendFaults(md.root.value, history, 0, md.order, symbol);
    if IncrementContexts(md, history, symbol).Ok? {
      DescendKeepsShape(md.root.value, history, 0, md.order, symbol);
    }
  }

  /**
   * What `IncrementContexts` does to each context: every context along the
   * history exists afterwards with one more `symbol` on top of its old table,
   * or on top of the seed (escape 1) if it was just created; existing contexts
   * are never replaced and every context off the history is unchanged.
   */
  lemma IncrementEffect(md: Model, history: seq<nat>, symbol: nat, path: seq<nat>)
    requires md.root.Some? && Sized(md.root.value)
    requires IncrementContexts(md, history, symbol).Ok?
    ensures var after := IncrementContexts(md, history, symbol).value.root.value;
      && (path <= history ==> NodeAt(after, path).Some?)
      && (path <= history ==> NodeAt(after, path).value.freqs == Increment(BaseTable(md.root.value, path), symbol))
      && (!(path <= history) ==> NodeAt(after, path) == NodeAt(md.root.value, path))
  {
    DescendEffect(md.root.value, history, 0, md.order, symbol, path);
  }

  /** A context created by an update holds escape 1 plus the one occurrence of the symbol, and nothing else. */
  lemma CreatedContextCounts(md: Model, history: seq<nat>, symbol: nat, path: seq<nat>)
    requires md.root.Some? && Sized(md.root.value)
    requires IncrementContexts(md, history, symbol).Ok?
    requires path <= history && NodeAt(md.root.value, path).None?
    ensures var after := IncrementContexts(md, history, symbol).value.root.value;
      && NodeAt(after, path).Some?
      && |NodeAt(after, path).value.freqs| == SymbolLimit
      && forall k :: 0 <= k < SymbolLimit ==>
        NodeAt(after, path).value.freqs[k] == (if k == EscapeSymbol then 1 else 0) + (if k == symbol then 1 else 0)
  {
    IncrementEffect(md, history, symbol, path);
  }
}
