# TinyVec ⇄ Python conversions, modelled in Dafny

This project models the conversions between a Python object and a `TinyVec` (a
small vector that keeps a few elements inline and spills to the heap beyond
that), as PyO3 implements them in `src/conversions/tinyvec.rs`.

- `FromPyObject::extract` refuses a `str` before anything else is asked. If the
  `is_instance_of::<PyString>` probe itself raises, extraction carries on as for a
  non-string: it fails open.
- `extract_sequence` downcasts to a sequence view, failing with a downcast error
  naming `"Sequence"` when the sequence check fails. It reserves as much
  capacity as `len()` reports (0 when `len()` raises), then walks `iter()`. Each
  item is converted with the element type's extraction and pushed. The first
  exception, whether from `iter()`, from `next()` or from a conversion, is
  returned unchanged, and no partial vector escapes.
- `ToPyObject::to_object` builds a list from a borrowed slice view of the vector.
  `IntoPy::into_py` consumes the vector into a list. Either way each element is
  converted once, in order.

Files:

- `wrappers.dfy` (module `Wrappers`): `Option` and `Result`.
- `host.dfy` (module `PyHost`): the Python runtime as values. It holds
  exceptions (`Err`), objects (`Obj`: `Str`, `Sequence`, `Other`) and the queries
  the conversions make: the `str` probe, the sequence check and checked downcast
  to the `PySequence` view, `len()`, `iter()`, and the list constructor.
  - A `Sequence` carries what `len()` answers and what `iter()` gives. That is
    either `iter()`'s exception or the finite stream of results `next()`
    produces, so an exception can appear mid-iteration.
  - A `str` passes the sequence check and iterates as one-character strings,
    just as in Python.
- `tinyvec.dfy` (module `TinyVecConversions`): the four operations and a
  reference specification of the fail-fast walk.
  - The reference specification is made of `ItemOk`, `AllOk`, `FailsFirstAt`,
    `Collected` and `FoldTrace`, and is stated independently of the walk's
    definition.
  - Every extraction returns a `Traced` value: the result together with the
    runtime queries made, in order (`ProbeStr`, `CheckSequence`, `QueryLen`,
    `OpenIter`, `Next(i)`, `ExtractItem(i)`). This makes "this step is never
    reached" and "no later item is converted" statements about the model.
- `tinyvec_properties.dfy` (module `TinyVecProperties`): the reference
  specification has exactly one solution. Capacity and the `len()` hint do not
  change the result, allocation failure aside (see "Left out"). The walk
  short-circuits, the guard fails open, and both round trips hold.

The container is modelled as its sequence of elements. Capacity lives only in the
`Buffer` used while collecting, and no result exposes it. The element conversions
(`FromPyObject`, `ToPyObject` and `IntoPy` for the element type) are function
parameters: `Obj -> Result<T, Err>` one way, and `T -> Obj` the other.

## Model

| member | source | states |
|---|---|---|
| `PyHost.NewList` | src/conversions/tinyvec.rs:43 | the list built from a sequence of objects is not a `str`, passes the sequence check, reports their count as its length, and iterates exactly those objects in order without an exception |
| `TinyVecConversions.Fold` | src/conversions/tinyvec.rs:77-80 | the walk keeps the buffer's earlier elements in front. After them it holds exactly one converted element per item, in stream order, when every item converts; otherwise it yields the exception of the first failing item unchanged (from `next()` or from the conversion) and no buffer. Its queries are one `next()` and one conversion per item up to the first failure, then the final `next()`, plus that item's conversion if the iterator produced it |
| `TinyVecConversions.FoldSpecStep` | src/conversions/tinyvec.rs:77-79 | one iteration of the loop, pulling an item that converts and pushing it, extends a walk that meets the reference specification to one that also meets it, elements and queries alike |
| `TinyVecConversions.CollectItems` | src/conversions/tinyvec.rs:76-80 | for any reserved capacity: an `iter()` that raises ends the run with that exception after the single `iter()` query; otherwise the run opens the iterator and then walks its stream as the reference specification demands |
| `TinyVecConversions.ExtractSequence` | src/conversions/tinyvec.rs:61-81 | an object failing the sequence check gives the `"Sequence"` downcast error after the check alone, with no `len()` and no `iter()`; one passing it is checked, measured and then iterated per the reference specification |
| `TinyVecConversions.Extract` | src/conversions/tinyvec.rs:53-58 | a probe answering "is a `str`" gives the `str` type error after the probe alone. Any other probe outcome, including a raised probe, goes on to the sequence check: a downcast error after exactly the probe and the check, or otherwise the full iteration |
| `TinyVecConversions.ToObject` | src/conversions/tinyvec.rs:31-33 | the borrowed vector becomes a non-`str` list object whose length is the vector's length and whose iteration yields, error-free, the conversion of each element in vector order |
| `TinyVecConversions.IntoIterMap` | src/conversions/tinyvec.rs:42 | the consuming iterator yields one converted object per element, as many as there are elements, in vector order |
| `TinyVecConversions.IntoPy` | src/conversions/tinyvec.rs:41-45 | the consumed vector becomes a non-`str` list object of its length whose iteration yields, error-free, each element's `into_py` conversion in vector order |
| `TinyVecProperties.FirstFailureExists` | src/conversions/tinyvec.rs:77-78 | a walk that does not convert every item has a first failing item, so the error the walk reports is always defined |
| `TinyVecProperties.CollectedUnique` | src/conversions/tinyvec.rs:77-80 | the reference specification admits exactly one outcome, vector or exception, for a given stream and element conversion |
| `TinyVecProperties.IteratedUnique` | src/conversions/tinyvec.rs:77-80 | iterating a given sequence view has exactly one possible outcome, result and runtime queries included |
| `TinyVecProperties.CapacityIrrelevant` | src/conversions/tinyvec.rs:76 | the capacity reserved before the walk never changes the result or the queries made |
| `TinyVecProperties.LenHintIrrelevant` | src/conversions/tinyvec.rs:76 | two sequences that differ only in what `len()` answers extract identically, including when one `len()` raises |
| `TinyVecProperties.FoldFailsAt` | src/conversions/tinyvec.rs:77-78 | when item `k` is the first to fail, the walk returns that item's exception unchanged, after `next()` on items `0..k` and conversions of the items before `k` only (plus item `k` when the iterator produced it) |
| `TinyVecProperties.StopsAtFirstFailure` | src/conversions/tinyvec.rs:77-78 | once item `k` fails, replacing every later item by anything leaves the walk unchanged, queries included |
| `TinyVecProperties.StopTraceTouches` | src/conversions/tinyvec.rs:77-78 | a walk stopping at item `k` asks `next()` for exactly the items up to `k`. It converts exactly the items before `k`, plus item `k` only when the iterator produced it |
| `TinyVecProperties.NoConversionAfterFirstFailure` | src/conversions/tinyvec.rs:77-78 | when item `k` is the first to fail, no item after `k` is asked for or converted |
| `TinyVecProperties.StrProbeErrorFailsOpen` | src/conversions/tinyvec.rs:54-57 | a `str` whose probe answers is refused with the `str` type error. A `str` whose probe raises is not refused: it is split into its one-character strings, and the result has one element per character, in order |
| `TinyVecProperties.SequenceProbeErrorFailsOpen` | src/conversions/tinyvec.rs:54-57 | on a sequence object, a raised `str` probe behaves exactly as a probe answering "not a `str`" |
| `TinyVecProperties.ExtractFromList` | src/conversions/tinyvec.rs:77-80 | extracting from a list whose entries all convert back returns exactly those elements, in list order |
| `TinyVecProperties.ToObjectRoundTrip` | src/conversions/tinyvec.rs:31-33 | a vector whose elements round-trip is returned unchanged by extracting from its `to_object` list |
| `TinyVecProperties.IntoPyRoundTrip` | src/conversions/tinyvec.rs:41-45 | a vector whose elements round-trip is returned unchanged by extracting from its `into_py` list |
| `TinyVecProperties.ToObjectMatchesIntoPy` | src/conversions/tinyvec.rs:31-45 | with the same element conversion, the borrowing and the consuming conversion build the same list |

## Left out

- Reference counting, the GIL token `Python<'_>` and object lifetimes are left out: they do not change what is computed.
- Borrowing versus consuming is not distinguished: Dafny values are immutable, so `ToObject` trivially leaves its argument unchanged. The invalidation of the vector after `into_py` is Rust ownership, and it is not modelled.
- The FFI call behind the sequence check, the unchecked downcast and `as_ptr` appear only as the `PassesSequenceCheck` predicate and the checked `DowncastSequence`.
- TinyVec's inline-versus-heap storage and `Array` internals are left out. The buffer's capacity is a plain number that grows when the buffer is full.
- TinyVecProperties.LenHintIrrelevant: holds only because allocation is not modelled. Whatever `len()` answers becomes the reserved capacity, and above the inline size the source reserves heap storage that panics on capacity overflow or aborts when the allocation fails, e.g. for a `len()` of `sys.maxsize`. The model's capacity is an unbounded `nat`, so such a sequence extracts like any other.
- TinyVecProperties.CapacityIrrelevant: the same gap. Reserving any capacity always succeeds in the model, so a capacity too large to allocate is not represented.
- How the runtime converts a slice to a list and how `new_from_iter` works are not shown in the source. Both are modelled as "a list of the converted elements, in order" (`NewList`).
- The exception message texts are left out. The `str` refusal is `CannotExtractStr`, the downcast error keeps only its target name `"Sequence"`, and every other exception is an opaque `Raised(n)`.
- The feature gating and setup documentation (lines 1-14) are left out.
- Iterators are finite: an endless `iter()` cannot be written as a `Stream`.
- Element conversions are total functions of the item. A conversion with side effects on the runtime is not modelled.
