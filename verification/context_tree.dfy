/**
 * The adaptive PPM context tree: one frequency table per context, children
 * created lazily along the history, depth bounded by the model order.
 */
module ContextTree {
  import opened Wrappers
  import opened FrequencyTable

  /** A C++ `int`. */
  type Int32 = x: int | -0x8000_0000 <= x < 0x8000_0000

  /** `static_cast<unsigned int>(x)`: a negative int wraps to x + 2^32. */
  function AsUnsigned(x: Int32): (u: nat)
    ensures u < 0x1_0000_0000
    ensures x >= 0 ==> u == x
    ensures x < 0 ==> u >= 0x8000_0000
  {
    if x < 0 then x + 0x1_0000_0000 else x
  }

  /** The exceptions the model and the walk can raise. */
  datatype Fault =
    | InvalidArgument   // std::invalid_argument("Illegal argument")
    | AssertionError    // std::logic_error("Assertion error")
    | OutOfRange        // std::out_of_range from vector::at

  /**
   * One context: its frequency table and its child slots, indexed by the next
   * (older) history symbol. The slot sequence is either empty (a leaf that may
   * never have children) or has one slot per symbol. Children are exclusively
   * owned, so the tree is an ordinary recursive value.
   */
  datatype Node = Node(freqs: Table, subcontexts: seq<Option<Node>>)

  /** The model: the order-0 root (absent when the order is negative) and the configuration. */
  datatype Model = Model(
    root: Option<Node>,
    extensibility: Int32,
    credibility: Int32,
    order: Int32,
    nodeLimit: Int32)

  /** A fresh context: every count zero, and `symbols` empty child slots exactly when `hasSubctx`. */
  function NewContext(symbols: nat, hasSubctx: bool): (c: Node)
    ensures |c.freqs| == symbols
    ensures forall s :: 0 <= s < symbols ==> c.freqs[s] == 0
    ensures hasSubctx ==> |c.subcontexts| == symbols
    ensures !hasSubctx ==> c.subcontexts == []
    ensures forall i :: 0 <= i < |c.subcontexts| ==> c.subcontexts[i].None?
  {
    Node(Zeroed(symbols), if hasSubctx then seq(symbols, _ => None) else [])
  }

  /** The table every order >= 0 context starts with: escape 1, everything else 0. */
  function SeedTable(): (t: Table)
    ensures |t| == SymbolLimit
    ensures t[EscapeSymbol] == 1
    ensures forall s :: 0 <= s < SymbolLimit && s != EscapeSymbol ==> t[s] == 0
  {
    Increment(Zeroed(SymbolLimit), EscapeSymbol)
  }

  /** A context as the model creates it: a fresh context whose escape count was bumped once. */
  function Seeded(hasSubctx: bool): (c: Node)
    ensures c.freqs == SeedTable()
    ensures hasSubctx ==> |c.subcontexts| == SymbolLimit
    ensures !hasSubctx ==> c.subcontexts == []
    ensures forall i :: 0 <= i < |c.subcontexts| ==> c.subcontexts[i].None?
  {
    var blank := NewContext(SymbolLimit, hasSubctx);
    blank.(freqs := Increment(blank.freqs, EscapeSymbol))
  }

  /** Every table in the tree covers the whole alphabet. */
  predicate Sized(n: Node)
    decreases n
  {
    && |n.freqs| == SymbolLimit
    && forall i :: 0 <= i < |n.subcontexts| && n.subcontexts[i].Some? ==> Sized(n.subcontexts[i].value)
  }

  /**
   * The shape invariant of a node at `depth` in a model of maximum order
   * `order`: a full table with a positive escape count, child slots exactly
   * when the depth is below the order, and every child shaped one level down.
   */
  predicate Shaped(n: Node, depth: nat, order: int)
    decreases n
  {
    && |n.freqs| == SymbolLimit
    && n.freqs[EscapeSymbol] > 0
    && |n.subcontexts| == (if depth < order then SymbolLimit else 0)
    && forall i :: 0 <= i < |n.subcontexts| && n.subcontexts[i].Some? ==> Shaped(n.subcontexts[i].value, depth + 1, order)
  }

  /**
   * The invariant of a model: a root exactly when the order is not negative,
   * and a shaped tree (whose tables are therefore full-sized; that is stated
   * too, for the operations' preconditions).
   */
  predicate Valid(md: Model) {
    && (md.root.Some? <==> md.order >= 0)
    && (md.root.Some? ==> Shaped(md.root.value, 0, md.order) && Sized(md.root.value))
  }

  /** The context addressed by `path` (newest symbol first), if it exists. */
  function NodeAt(n: Node, path: seq<nat>): (r: Option<Node>)
    ensures r.Some? && Sized(n) ==> Sized(r.value)
    decreases |path|
  {
    if path == [] then Some(n)
    else if path[0] < |n.subcontexts| && n.subcontexts[path[0]].Some? then
      NodeAt(n.subcontexts[path[0]].value, path[1..])
    else None
  }

  /**
   * The lookup the escape walk performs: a leaf with no slots while the path
   * goes on is an assertion error, a symbol past the slots is out of range,
   * and an empty slot means the context does not exist.
   */
  function Find(n: Node, path: seq<nat>): (r: Result<Option<Node>, Fault>)
    ensures r.Ok? ==> r.value == NodeAt(n, path)
    ensures r.Ok? && r.value.Some? && Sized(n) ==> Sized(r.value.value)
    ensures r.Err? ==> NodeAt(n, path).None?
    decreases |path|
  {
    if path == [] then Ok(Some(n))
    else if |n.subcontexts| == 0 then Err(AssertionError)
    else if path[0] >= |n.subcontexts| then Err(OutOfRange)
    else match n.subcontexts[path[0]]
      case None => Ok(None)
      case Some(child) => Find(child, path[1..])
  }

  /**
   * Builds the model. With a non-negative order the root is a fresh context
   * whose escape count is 1, with child slots when the order is at least 1;
   * with a negative order there is no root.
   */
  function NewModel(et: Int32, ct: Int32, m: Int32, z: Int32): (md: Model)
    ensures md.extensibility == et && md.credibility == ct && md.order == m && md.nodeLimit == z
    ensures md.root.Some? <==> m >= 0
    ensures md.root.Some? ==> |md.root.value.freqs| == SymbolLimit && forall s :: 0 <= s < SymbolLimit ==>
      md.root.value.freqs[s] == (if s == EscapeSymbol then 1 else 0)
    ensures md.root.Some? ==> (md.root.value.subcontexts != [] <==> m >= 1)
    ensures md.root.Some? ==> forall i :: 0 <= i < |md.root.value.subcontexts| ==> md.root.value.subcontexts[i].None?
    ensures Valid(md)
  {
    Model(if m >= 0 then Some(Seeded(m >= 1)) else None, et, ct, m, z)
  }

  /**
   * Counts `symbol` in `ctx` (at `depth`) and in every context along `rest`,
   * creating missing contexts seeded with escape 1; a created context at depth
   * d has child slots exactly when d is below the order (compared unsigned).
   */
  function Descend(ctx: Node, rest: seq<nat>, depth: nat, order: Int32, symbol: nat): (r: Result<Node, Fault>)
    requires Sized(ctx) && symbol < SymbolLimit
    ensures r.Ok? ==> Sized(r.value)
    ensures r.Ok? ==> r.value.freqs == Increment(ctx.freqs, symbol)
    ensures r.Ok? ==> |r.value.subcontexts| == |ctx.subcontexts|
    decreases |rest|
  {
    var here := ctx.(freqs := Increment(ctx.freqs, symbol));
    if rest == [] then Ok(here)
    else if |here.subcontexts| == 0 then Err(AssertionError)
    else if rest[0] >= |here.subcontexts| then Err(OutOfRange)
    else
      var child := match here.subcontexts[rest[0]]
        case Some(c) => c
        case None => Seeded(depth + 1 < AsUnsigned(order));
      var child' :- Descend(child, rest[1..], depth + 1, order, symbol);
      Ok(here.(subcontexts := here.subcontexts[rest[0] := Some(child')]))
  }

  /**
   * Records one occurrence of `symbol` after `history` (newest first): the
   * root and each context along the history gain one count of `symbol`.
   * Rejects a symbol outside the alphabet and a history longer than the
   * order, where the order is compared as an unsigned number.
   */
  function IncrementContexts(md: Model, history: seq<nat>, symbol: nat): (r: Result<Model, Fault>)
    requires md.root.Some? && Sized(md.root.value)
    ensures |history| > AsUnsigned(md.order) || symbol >= SymbolLimit ==> r == Err(InvalidArgument)
    ensures r.Ok? ==> r.value.root.Some? && Sized(r.value.root.value)
    ensures r.Ok? ==> r.value == md.(root := r.value.root)
    ensures r.Ok? ==> r.value.root.value.freqs == Increment(md.root.value.freqs, symbol)
  {
    if |history| > AsUnsigned(md.order) || symbol >= SymbolLimit then Err(InvalidArgument)
    else
      var root :- Descend(md.root.value, history, 0, md.order, symbol);
      Ok(md.(root := Some(root)))
  }
}
