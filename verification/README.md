# dhpc context tree, escape walk and compression drivers in Dafny

dhpc compresses a byte stream with prediction by partial matching (PPM) over an
adaptive context tree, and drives an arithmetic coder with the result. This
project models the part that decides what gets coded:

- **The context tree** (`DhpcModel`). Every context has a frequency table
  over 257 symbols: the 256 byte values plus symbol 256. Symbol 256 is the
  escape in a context of order >= 0 and the end of stream at order -1. A
  context has child slots indexed by the next older history symbol. The root
  is the order-0 context. A fresh context starts with an escape count of 1.
  `incrementContexts` counts a symbol in the root and in every context along
  the history, newest symbol first. It creates missing contexts on the way.
  A context at depth d gets child slots only when d is below the model order.
- **The escape walk** (`encodeSymbol`). It tries the longest context first,
  starting at order |history|. An existing context whose count for the symbol
  is positive codes the symbol there. An existing context without that
  count codes an escape and the walk goes on. A missing context is skipped
  silently. After order 0 comes the flat order -1 table.
- **The driver loop** (`compress`, in both drivers). For each byte it runs
  the walk, then the update, then pushes the byte onto the front of the
  history. The history is capped at the model order and kept only when the
  order is at least 1. The end-of-stream symbol is coded once at the end.
  The second driver (`DhpcDecompress.cpp`) does the same with the order
  capped at 3. It also rejects values outside 0..255.

The arithmetic coder is abstracted to the sequence of `Write(order, table,
symbol)` calls made on it. Exceptions become `Result` errors: `InvalidArgument`,
`AssertionError` for `logic_error("Assertion error")`, and `OutOfRange` for
`vector::at`.

The tree is an immutable recursive datatype (`ContextTree.Node`). Its child
slots are `seq<Option<Node>>`: empty, or one slot per symbol. This mirrors the
vector of `unique_ptr`.

Modules, in dependency order:

- `Wrappers`
- `FrequencyTable`: counts as a sequence of naturals.
- `ContextTree`: the node, the model, construction, lookup and update.
- `TreeFacts`: shape and effect theorems for the update.
- `EscapeWalk`: the walk and its theorems.
- `Compressor`: the first driver's loop.
- `CompressorFacts`: run invariant, count theorem, end-of-stream theorem,
  configuration irrelevance and concrete scenarios.
- `DecompressDriver`: the second driver.

The main theorems:

- After coding any input, a context exists exactly for the paths some byte
  was coded under. Its count for each symbol is the number of times that
  symbol followed the path, plus the seed 1 for escape
  (`CompressorFacts.CountsMatchOccurrences`).
- Every write hands the coder a symbol with a positive count.
- The stream ends with exactly one end-of-stream code, at order -1.
- The extensibility, credibility and node-limit settings never influence the
  output.

Points where the code's behaviour is easy to misread:

- For "ABAB" at order 1 the context after "A" counts "B" twice, once per
  "AB" (`CompressorFacts.AbabCounts`).
- The walk starts at order |history|, which the driver keeps at or below the
  model order (`CompressorFacts.RunState`), so no lookup goes deeper than the
  tree.
- The order -1 table `orderMinus1Freqs` is not a member of the model class in
  `DhpcModel.hpp`; its initialiser `FlatFrequencyTable(symbolLimit)` is
  commented out at `DhpcModel.cpp` line 31. It is modelled as that flat table,
  with every count 1.
- The second driver calls the model constructor with three arguments: the
  clamped order, 257 and 256. That is the older `PpmModel(order, symbolLimit,
  escapeSymbol)` shape. It is modelled as a model of the clamped order with
  the other settings 0. `DecompressDriver.DriverMatchesCompress` shows the
  other settings do not matter. Its `modelOrder` field is taken to be `order`.

## Model

| member | source | states |
|---|---|---|
| ContextTree.AsUnsigned | DhpcModel.cpp:42 | the unsigned view of an int is below 2^32, equals the int when it is not negative, and is at least 2^31 when it is negative |
| ContextTree.NewContext | DhpcModel.cpp:20-26 | a new context has every count 0, and one empty child slot per symbol exactly when it may have children (no slots otherwise) |
| ContextTree.SeedTable | DhpcModel.cpp:36 | the table every order >= 0 context starts with has 257 entries, escape count 1 and every other count 0 |
| FrequencyTable.Increment | DhpcModel.cpp:46-59 | counting a symbol adds one to its count and leaves every other count and the table size unchanged |
| ContextTree.Seeded | DhpcModel.cpp:55-56 | a context created by the model holds the seed table and empty slots (257 when it may have children, none otherwise) |
| ContextTree.Find | DhpcCompress.cpp:107-114 | the walk's lookup, when it succeeds, agrees with the tree lookup; when it faults, the context does not exist |
| ContextTree.NewModel | DhpcModel.cpp:29-38 | the model stores its settings; it has a root exactly when the order is not negative; the root counts only escape, once; the root has child slots exactly when the order is at least 1; the new model is valid |
| ContextTree.Descend | DhpcModel.cpp:45-61 | a successful update counts the symbol once more in the starting context and keeps full tables and the slot count |
| ContextTree.IncrementContexts | DhpcModel.cpp:41-62 | a history longer than the order (compared unsigned) or a symbol outside the alphabet is an invalid-argument error; success changes only the tree, and the root gains one count of the symbol |
| TreeFacts.ContextDepthBounded | DhpcModel.cpp:55 | in a valid tree no context lies deeper than the order, and every context has a positive escape count |
| TreeFacts.FindNeverFaults | DhpcCompress.cpp:108-111 | on a valid tree, a lookup no longer than the order over alphabet symbols never faults |
| TreeFacts.DescendEffect | DhpcModel.cpp:45-61 | after an update, every context along the history exists and holds its old table (or the seed, if it was just created) plus one count of the symbol; every other context is unchanged |
| TreeFacts.DescendKeepsShape | DhpcModel.cpp:55-56 | an update keeps the tree valid: a context created at depth d has child slots exactly when d is below the order |
| TreeFacts.DescendFaults | DhpcModel.cpp:48-53 | on a valid tree, an update along a history no longer than the order fails exactly when a history symbol is outside the alphabet, and then out of range |
| TreeFacts.IncrementOutcome | DhpcModel.cpp:41-62 | on a valid model with a short enough history, the update fails exactly when a history symbol is outside the alphabet; otherwise the model stays valid |
| TreeFacts.IncrementEffect | DhpcModel.cpp:45-61 | model-level form of the update's effect: contexts along the history gain one count of the symbol; all others are untouched |
| TreeFacts.CreatedContextCounts | DhpcModel.cpp:54-59 | a context created by an update counts escape once and the symbol once, and nothing else |
| EscapeWalk.OrderMinus1Freqs | DhpcModel.cpp:31 | the order -1 table gives all 257 symbols, end of stream included, count 1 |
| EscapeWalk.ContextLookups | DhpcCompress.cpp:106-114 | there is one lookup per order 0 to the history length; entry j follows the newest j history symbols; on full-table trees every found context has a full table |
| EscapeWalk.WalkFrom | DhpcCompress.cpp:106-124 | the walk from order k makes between 1 and k + 2 writes; the last codes the symbol itself, against the flat table at order -1 or at a context where its count is positive |
| EscapeWalk.WalkAtContext | DhpcCompress.cpp:115-120 | at an existing context of order k the walk codes the symbol there and stops exactly when the symbol is not the reserved one and has a positive count; otherwise it writes an escape there, and succeeds exactly when the walk from k - 1 does, which then follows |
| EscapeWalk.WalkTraceShape | DhpcCompress.cpp:115-121 | every write before the last is an escape at an order >= 0, and successive writes are at strictly decreasing orders |
| EscapeWalk.WalkWritesAtContexts | DhpcCompress.cpp:106-120 | every write at order j >= 0 uses the table of the context found at order j; every escape is written at a context where the symbol has no positive count |
| EscapeWalk.WalkVisitsFoundContexts | DhpcCompress.cpp:106-122 | every found context above the order the walk stopped at receives a write: existing contexts are never skipped |
| EscapeWalk.WalkFaultsOnlyOnLookups | DhpcCompress.cpp:108-111 | the walk can fault only through a faulting lookup |
| EscapeWalk.EncodeSymbol | DhpcCompress.cpp:101-125 | a successful walk makes at most the history length + 2 writes; all but the last are escapes at orders >= 0; the last codes the symbol (end of stream only at order -1) |
| EscapeWalk.EncodeOrdersDecrease | DhpcCompress.cpp:106 | the walk's writes are at strictly decreasing orders, so no context is written twice |
| EscapeWalk.EncodeWritesAtContexts | DhpcCompress.cpp:106-120 | every write at an order o >= 0 uses the table of the existing context of the newest o history symbols, and escapes are written only where the symbol misses |
| EscapeWalk.EncodeVisitsContexts | DhpcCompress.cpp:106-122 | every existing context above the order where the walk stops receives a write |
| EscapeWalk.EncodeOnValidModel | DhpcCompress.cpp:115-124 | on a valid model with a short enough history of alphabet symbols the walk never faults, and every write codes a symbol with a positive count |
| EscapeWalk.EncodeEndOfStream | DhpcCompress.cpp:96 | coding end of stream escapes at exactly the existing contexts along the history and ends with symbol 256 in the flat table |
| Compressor.PushHistory | DhpcCompress.cpp:88-93 | for order < 1 the history is unchanged; otherwise the byte is prepended and the result is cut to the order |
| Compressor.PushRecent | DhpcCompress.cpp:88-93 | pushing a byte onto the most recent bytes of an input gives the most recent bytes of the input extended by it |
| Compressor.Start | DhpcCompress.cpp:75-76 | coding starts with an empty history, nothing written, and a valid new model holding the given settings, with a root exactly when the order is not negative |
| Compressor.Step | DhpcCompress.cpp:84-93 | one byte (walk, update, history push) keeps a root with full tables and keeps the order |
| Compressor.Process | DhpcCompress.cpp:78-94 | the byte loop keeps a root with full tables and keeps the order |
| Compressor.Compress | DhpcCompress.cpp:69-98 | a successful compression is the byte loop's writes followed by at least one more write, the last being end of stream at order -1 in the flat table |
| CompressorFacts.StepKeepsRunState | DhpcCompress.cpp:84-93 | from the run state one byte never faults and reaches the run state of the longer input |
| CompressorFacts.RunInvariant | DhpcCompress.cpp:69-94 | coding any input never faults; afterwards the model is valid with unchanged settings, the history is the most recent min(input length, order) bytes newest first, every write is codable, and there are at most order + 2 writes per byte |
| CompressorFacts.CountsStep | DhpcCompress.cpp:85-86 | one byte keeps the count theorem for every path and symbol |
| CompressorFacts.CountsMatchOccurrences | DhpcModel.cpp:41-62 | after coding an input, a context exists exactly for the empty path and for paths some byte was coded under; its count for a symbol is how often that symbol followed the path, plus 1 for escape |
| CompressorFacts.EndOfStreamCodes | DhpcCompress.cpp:96 | after any input, coding end of stream never faults: at most order + 2 codable writes, escapes at orders >= 0, then symbol 256 in the flat table |
| CompressorFacts.CompressTrace | DhpcCompress.cpp:69-98 | a whole compression never faults; its last write is end of stream at order -1, which occurs nowhere else; every write is codable; there are at most (input length + 1) * (order + 2) writes |
| CompressorFacts.StepIgnoresConfig | DhpcCompress.cpp:84-93 | changing the unused settings changes the result of one byte only in those settings |
| CompressorFacts.ProcessIgnoresConfig | DhpcCompress.cpp:78-94 | changing the unused settings changes the result of the byte loop only in those settings |
| CompressorFacts.ConfigIrrelevant | DhpcModel.hpp:44 | extensibility, credibility and node limit never affect the coded stream |
| CompressorFacts.EmptyInputTrace | DhpcCompress.cpp:96 | an empty input codes an escape in the root, then end of stream in the flat table |
| CompressorFacts.AbabCounts | DhpcModel.cpp:41-62 | after "ABAB" at order 1, the root counts A twice, B twice and escape once; the context after A counts B twice; the context after B counts A once; there is no context after C |
| DecompressDriver.ClampOrder | DhpcDecompress.cpp:70 | the clamped order is the smaller of the requested order and 3 |
| DecompressDriver.BeforeEof | DhpcDecompress.cpp:76-78 | the driver reads the longest prefix of the stream values that holds no end-of-file marker, stopping at the first marker |
| DecompressDriver.DriverStart | DhpcDecompress.cpp:70-71 | the second driver starts with an empty history, nothing written, and a valid model whose order is the clamped order min(z, 3), with its other settings 0 |
| DecompressDriver.Run | DhpcDecompress.cpp:74-91 | the range-checked byte loop keeps a root with full tables |
| DecompressDriver.RunMatchesProcess | DhpcDecompress.cpp:79-90 | on in-range values the second driver's loop is exactly the first driver's loop |
| DecompressDriver.GoodValuesRun | DhpcDecompress.cpp:74-91 | the range-checked loop never faults on in-range values |
| DecompressDriver.RejectsFirstBadValue | DhpcDecompress.cpp:79-80 | after in-range values, an out-of-range value is an assertion error |
| DecompressDriver.RunRejects | DhpcDecompress.cpp:79-80 | any out-of-range value among the inputs makes the loop an assertion error |
| DecompressDriver.DriverCompress | DhpcDecompress.cpp:65-95 | a successful run is the range-checked loop's writes over the values before end of file, followed by end of stream at order -1 in the flat table |
| DecompressDriver.DriverMatchesCompress | DhpcDecompress.cpp:65-122 | when every value is a byte, the second driver codes exactly what the first codes with order min(z, 3), whatever the other settings |
| DecompressDriver.DriverOutcome | DhpcDecompress.cpp:74-95 | the second driver succeeds exactly when every value before the end of the stream is a byte; otherwise it raises an assertion error |

## Left out

- `main` in both drivers: argument parsing, file and stream setup and error
  reporting are I/O. Neither compiles as written.
- The arithmetic coder and bit output (`ArithmeticEncoder`, `BitOutputStream`,
  `enc.finish()`). The coder is represented by the sequence of writes made
  on it.
- `SimpleFrequencyTable` internals: counts are unbounded naturals. The 32-bit
  count overflow check, the totals and the cumulative ranges belong to the
  frequency-table code, which is not part of this model.
- `estimate` and the other empty placeholder members: they do nothing.
- Decoding: the repository has no decoder. `DhpcDecompress.cpp` is a second
  compressor.
- A negative model order: the root is null, and both drivers dereference it
  in the walk. That is undefined behaviour, so `Compress`, `DriverCompress`
  and the walk require a root (order >= 0, z >= 0).
- IncrementContexts: when it throws part-way, the C++ tree keeps the counts
  already added. The model returns only the error. Both drivers let the
  exception end the program, so the partial tree is never used again.
- EncodeSymbol: requires a symbol below 257. Both drivers pass only bytes and
  256. What the frequency table does with a larger symbol belongs to the
  frequency-table code.
- History elements are naturals rather than `uint32_t`. The walk and the
  update compare them against the 257 slots, so a value of 2^32 or more
  behaves like any other out-of-range value.
- The stream reader of the second driver is represented by the sequence of
  values `in.get()` returns. The end-of-file value -1 stops the loop.
