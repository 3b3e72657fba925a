/**
  Conversions between a Python object and a `TinyVec` (an ordered small vector).

  Extraction screens out `str` objects, downcasts to a sequence view, sizes a
  buffer from the sequence's `len()`, then walks the sequence converting each
  item with the element type's own extraction and stops at the first exception.
  The two opposite conversions build a Python list, one from a borrowed slice
  view and one by consuming the vector.

  Every extraction run reports, besides its result, the runtime queries it made
  in order, so that "this step is never reached" is a statement about the model.
  The container is its sequence of elements: capacity lives only in the buffer
  used while collecting and is not part of any result.
 */
module TinyVecConversions {
  import opened Wrappers
  import opened PyHost

  /** A query made to the runtime during extraction. */
  datatype Call =
    | ProbeStr               // `is_instance_of::<PyString>`
    | CheckSequence          // the sequence check
    | QueryLen               // `len()`
    | OpenIter               // `iter()`
    | Next(index: nat)       // the `next()` that would produce item `index`
    | ExtractItem(index: nat) // the element conversion of item `index`

  /** A value together with the runtime queries that produced it. */
  datatype Traced<R> = Traced(value: R, calls: seq<Call>)

  /** The vector under construction: its elements and its reserved capacity. */
  datatype Buffer<T> = Buffer(items: seq<T>, capacity: nat)

  function WithCapacity<T>(n: nat): Buffer<T> {
    Buffer([], n)
  }

  /** Appends `x`, growing the capacity only when the buffer is full. */
  function Push<T>(b: Buffer<T>, x: T): Buffer<T> {
    Buffer(b.items + [x], if |b.items| < b.capacity then b.capacity else |b.items| + 1)
  }

  /** The elements of a finished buffer, or the exception that ended the run. */
  function Contents<T>(r: Result<Buffer<T>, Err>): Result<seq<T>, Err> {
    match r
    case Success(b) => Success(b.items)
    case Failure(e) => Failure(e)
  }

  // ---------------------------------------------------------------------------
  // Reference specification of the fail-fast walk, independent of its definition.

  /** The iterator produced this item and the element conversion accepts it. */
  predicate ItemOk<T>(item: Result<Obj, Err>, convert: Obj -> Result<T, Err>) {
    item.Success? && convert(item.value).Success?
  }

  /** The exception a failing item surfaces: the iterator's own, else the conversion's. */
  function ItemError<T>(item: Result<Obj, Err>, convert: Obj -> Result<T, Err>): Err
    requires !ItemOk(item, convert)
  {
    if item.Failure? then item.error else convert(item.value).error
  }

  ghost predicate AllOk<T>(stream: Stream, convert: Obj -> Result<T, Err>) {
    forall i :: 0 <= i < |stream| ==> ItemOk(stream[i], convert)
  }

  /** Item `k` is the first one that fails. */
  ghost predicate FailsFirstAt<T>(stream: Stream, convert: Obj -> Result<T, Err>, k: int) {
    && 0 <= k < |stream|
    && (forall i :: 0 <= i < k ==> ItemOk(stream[i], convert))
    && !ItemOk(stream[k], convert)
  }

  /**
    `r` is what a fail-fast walk of `stream` must give: every item converted, in
    order and nothing else, or else the exception of the first failing item.
   */
  ghost predicate Collected<T>(stream: Stream, convert: Obj -> Result<T, Err>, r: Result<seq<T>, Err>) {
    match r
    case Success(items) =>
      && |items| == |stream|
      && forall i :: 0 <= i < |stream| ==>
           ItemOk(stream[i], convert) && items[i] == convert(stream[i].value).value
    case Failure(e) =>
      && !AllOk(stream, convert)
      && forall k :: FailsFirstAt(stream, convert, k) ==> e == ItemError(stream[k], convert)
  }

  /** The queries made for `n` items that all convert, numbered from `base`. */
  function Visits(base: nat, n: nat): seq<Call>
    decreases n
  {
    if n == 0 then [] else [Next(base), ExtractItem(base)] + Visits(base + 1, n - 1)
  }

  /**
    `calls` are the queries a fail-fast walk of `stream` makes, numbering items
    from `base`: one `next()` and one conversion per item up to the first failure,
    then the `next()` that ends the walk and, if it produced an item, that item's
    conversion.
   */
  ghost predicate FoldTrace<T>(stream: Stream, convert: Obj -> Result<T, Err>, base: nat, calls: seq<Call>) {
    && (AllOk(stream, convert) ==> calls == Visits(base, |stream|) + [Next(base + |stream|)])
    && forall k :: FailsFirstAt(stream, convert, k) ==> calls == StopTrace(base, k, stream[k].Success?)
  }

  /**
    The queries of a walk that stops at item `k`: the items before it converted,
    then its `next()` and, when that produced an item, its conversion.
   */
  function StopTrace(base: nat, k: nat, produced: bool): seq<Call> {
    Visits(base, k) + [Next(base + k)] + (if produced then [ExtractItem(base + k)] else [])
  }

  /**
    `t` is what a fail-fast walk of `stream` must give when it starts from the
    buffer `buf`: the buffer's elements kept in front, the collected elements or
    first exception after them, and the queries of `FoldTrace`.
   */
  ghost predicate FoldSpec<T>(stream: Stream, convert: Obj -> Result<T, Err>, buf: Buffer<T>, t: Traced<Result<Buffer<T>, Err>>) {
    && (t.value.Success? ==>
          |buf.items| <= |t.value.value.items| && t.value.value.items[..|buf.items|] == buf.items)
    && Collected(stream, convert,
         if t.value.Success? then Success(t.value.value.items[|buf.items|..]) else Failure(t.value.error))
    && FoldTrace(stream, convert, |buf.items|, t.calls)
  }

  /** The result half of `FoldSpecStep`. */
  lemma FoldStepValue<T>(stream: Stream, convert: Obj -> Result<T, Err>, buf: Buffer<T>, x: T,
                         r: Result<Buffer<T>, Err>)
    requires |stream| > 0 && stream[0].Success? && convert(stream[0].value) == Success(x)
    requires r.Success? ==> |buf.items| + 1 <= |r.value.items| && r.value.items[..|buf.items| + 1] == buf.items + [x]
    requires Collected(stream[1..], convert, if r.Success? then Success(r.value.items[|buf.items| + 1..]) else Failure(r.error))
    ensures r.Success? ==> |buf.items| <= |r.value.items| && r.value.items[..|buf.items|] == buf.items
    ensures Collected(stream, convert, if r.Success? then Success(r.value.items[|buf.items|..]) else Failure(r.error))
  {
    var i := |buf.items|;
    var tail := stream[1..];
    if r.Success? {
      var items := r.value.items;
      assert items[..i] == (buf.items + [x])[..i] == buf.items;
      var mine, theirs := items[i..], items[i + 1..];
      forall j | 0 <= j < |stream|
        ensures ItemOk(stream[j], convert) && mine[j] == convert(stream[j].value).value
      {
        if j > 0 {
          assert stream[j] == tail[j - 1] && mine[j] == theirs[j - 1];
        }
      }
    } else {
      forall k | FailsFirstAt(stream, convert, k)
        ensures k >= 1 && FailsFirstAt(tail, convert, k - 1)
      {
        assert tail[k - 1] == stream[k];
      }
    }
  }

  /** The query half of `FoldSpecStep`. */
  lemma FoldStepTrace<T>(stream: Stream, convert: Obj -> Result<T, Err>, base: nat, rest: seq<Call>)
    requires |stream| > 0 && ItemOk(stream[0], convert)
    requires FoldTrace(stream[1..], convert, base + 1, rest)
    ensures FoldTrace(stream, convert, base, [Next(base), ExtractItem(base)] + rest)
  {
    var tail := stream[1..];
    forall k | FailsFirstAt(stream, convert, k)
      ensures [Next(base), ExtractItem(base)] + rest == StopTrace(base, k, stream[k].Success?)
    {
      assert tail[k - 1] == stream[k];
      assert rest == StopTrace(base + 1, k - 1, stream[k].Success?);
    }
  }

  /**
    One converted item in front of a walk that meets its specification meets it
    too.
   */
  lemma FoldSpecStep<T>(stream: Stream, convert: Obj -> Result<T, Err>, buf: Buffer<T>, x: T,
                        rest: Traced<Result<Buffer<T>, Err>>)
    requires |stream| > 0 && stream[0].Success? && convert(stream[0].value) == Success(x)
    requires FoldSpec(stream[1..], convert, Push(buf, x), rest)
    ensures FoldSpec(stream, convert, buf,
              Traced(rest.value, [Next(|buf.items|), ExtractItem(|buf.items|)] + rest.calls))
  {
    FoldStepValue(stream, convert, buf, x, rest.value);
    FoldStepTrace(stream, convert, |buf.items|, rest.calls);
  }

  /**
    The `for` loop of `extract_sequence`: take items in order, convert each, push it,
    and return the first exception unchanged.
   */
  function Fold<T>(stream: Stream, convert: Obj -> Result<T, Err>, buf: Buffer<T>): (t: Traced<Result<Buffer<T>, Err>>)
    ensures FoldSpec(stream, convert, buf, t)
    decreases |stream|
  {
    var i := |buf.items|;
    if |stream| == 0 then
      assert buf.items[i..] == [];
      Traced(Success(buf), [Next(i)])
    else
      match stream[0]
      case Failure(e) =>
        assert FailsFirstAt(stream, convert, 0);
        Traced(Failure(e), [Next(i)])
      case Success(item) =>
        match convert(item)
        case Failure(e) =>
          assert FailsFirstAt(stream, convert, 0);
          Traced(Failure(e), [Next(i), ExtractItem(i)])
        case Success(x) =>
          var rest := Fold(stream[1..], convert, Push(buf, x));
          FoldSpecStep(stream, convert, buf, x, rest);
          Traced(rest.value, [Next(i), ExtractItem(i)] + rest.calls)
  }

  // ---------------------------------------------------------------------------
  // The operations.

  /**
    What iterating the sequence view `s` must give once the length has been
    queried: `iter()`'s own exception, or a fail-fast walk of its stream.
   */
  ghost predicate Iterated<T>(s: PySequence, convert: Obj -> Result<T, Err>, r: Traced<Result<seq<T>, Err>>) {
    match GetIter(s)
    case Failure(e) => r == Traced(Failure(e), [OpenIter])
    case Success(stream) =>
      && |r.calls| >= 1 && r.calls[0] == OpenIter
      && Collected(stream, convert, r.value)
      && FoldTrace(stream, convert, 0, r.calls[1..])
  }

  /** `extract_sequence` after the length query: iterate `s` into a buffer reserved to `capacity`. */
  function CollectItems<T>(s: PySequence, convert: Obj -> Result<T, Err>, capacity: nat): (r: Traced<Result<seq<T>, Err>>)
    ensures Iterated(s, convert, r)
  {
    match GetIter(s)
    case Failure(e) => Traced(Failure(e), [OpenIter])
    case Success(stream) =>
      var t := Fold(stream, convert, WithCapacity(capacity));
      assert t.value.Success? ==> t.value.value.items[0..] == t.value.value.items;
      Traced(Contents(t.value), [OpenIter] + t.calls)
  }

  /** `extract_sequence`: downcast, reserve `len()` (0 when it raises), then iterate. */
  function ExtractSequence<T>(o: Obj, convert: Obj -> Result<T, Err>): (r: Traced<Result<seq<T>, Err>>)
    ensures !PassesSequenceCheck(o) ==> r == Traced(Failure(DowncastFailed("Sequence")), [CheckSequence])
    ensures PassesSequenceCheck(o) ==>
              && |r.calls| >= 2 && r.calls[..2] == [CheckSequence, QueryLen]
              && Iterated(o, convert, Traced(r.value, r.calls[2..]))
  {
    match DowncastSequence(o)
    case Failure(e) => Traced(Failure(e), [CheckSequence])
    case Success(s) =>
      var rest := CollectItems(s, convert, LenQuery(s).GetOr(0));
      assert ([CheckSequence, QueryLen] + rest.calls)[2..] == rest.calls;
      Traced(rest.value, [CheckSequence, QueryLen] + rest.calls)
  }

  /**
    `FromPyObject::extract` for `TinyVec`: a `str` is refused before anything
    else is asked; when the `str` probe itself raises, extraction carries on.
   */
  function Extract<T>(o: Obj, convert: Obj -> Result<T, Err>): (r: Traced<Result<seq<T>, Err>>)
    ensures StrProbe(o) == Success(true) ==> r == Traced(Failure(CannotExtractStr), [ProbeStr])
    ensures StrProbe(o) != Success(true) && !PassesSequenceCheck(o) ==>
              r == Traced(Failure(DowncastFailed("Sequence")), [ProbeStr, CheckSequence])
    ensures StrProbe(o) != Success(true) && PassesSequenceCheck(o) ==>
              && |r.calls| >= 3 && r.calls[..3] == [ProbeStr, CheckSequence, QueryLen]
              && Iterated(o, convert, Traced(r.value, r.calls[3..]))
  {
    match StrProbe(o)
    case Success(true) => Traced(Failure(CannotExtractStr), [ProbeStr])
    case _ =>
      var r := ExtractSequence(o, convert);
      assert ([ProbeStr] + r.calls)[1..] == r.calls;
      Traced(r.value, [ProbeStr] + r.calls)
  }

  /** `ToPyObject::to_object`: a list of the elements of a read-only slice view, in order. */
  function ToObject<T>(v: seq<T>, toObject: T -> Obj): (r: Obj)
    ensures StrProbe(r) == Success(false) && PassesSequenceCheck(r)
    ensures LenQuery(r) == Some(|v|)
    ensures GetIter(r).Success? && |GetIter(r).value| == |v|
    ensures forall i :: 0 <= i < |v| ==> GetIter(r).value[i] == Success(toObject(v[i]))
  {
    NewList(seq(|v|, i requires 0 <= i < |v| => toObject(v[i])))
  }

  /** The consuming iterator of `into_py`: each element taken from the front, converted exactly once. */
  function IntoIterMap<T>(v: seq<T>, intoPy: T -> Obj): (r: seq<Obj>)
    ensures |r| == |v|
    ensures forall i :: 0 <= i < |v| ==> r[i] == intoPy(v[i])
  {
    if |v| == 0 then [] else [intoPy(v[0])] + IntoIterMap(v[1..], intoPy)
  }

  /** `IntoPy::into_py`: the vector is consumed into a list of its converted elements, in order. */
  function IntoPy<T>(v: seq<T>, intoPy: T -> Obj): (r: Obj)
    ensures StrProbe(r) == Success(false) && PassesSequenceCheck(r)
    ensures LenQuery(r) == Some(|v|)
    ensures GetIter(r).Success? && |GetIter(r).value| == |v|
    ensures forall i :: 0 <= i < |v| ==> GetIter(r).value[i] == Success(intoPy(v[i]))
  {
    NewList(IntoIterMap(v, intoPy))
  }
}
