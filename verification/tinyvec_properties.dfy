/**
  Properties of the tinyvec conversions: the reference specification pins the
  result down uniquely, so the buffer capacity and the `len()` hint cannot
  change it; the walk stops at the first failure; the `str` guard fails open;
  and a vector survives the trip through a Python list and back.
 */
module TinyVecProperties {
  import opened Wrappers
  import opened PyHost
  import opened TinyVecConversions

  /** Moving past an item that converts shifts the first failure down by one. */
  lemma TailFailures<T>(stream: Stream, convert: Obj -> Result<T, Err>)
    requires |stream| > 0 && ItemOk(stream[0], convert)
    ensures AllOk(stream, convert) <==> AllOk(stream[1..], convert)
    ensures forall k :: FailsFirstAt(stream, convert, k) ==> k >= 1 && FailsFirstAt(stream[1..], convert, k - 1)
  {
  }

  /** A walk that does not convert everything has a first failing item. */
  lemma {:induction false} FirstFailureExists<T>(stream: Stream, convert: Obj -> Result<T, Err>)
    requires !AllOk(stream, convert)
    ensures exists k :: FailsFirstAt(stream, convert, k)
    decreases |stream|
  {
    if !ItemOk(stream[0], convert) {
      assert FailsFirstAt(stream, convert, 0);
    } else {
      var tail := stream[1..];
      TailFailures(stream, convert);
      FirstFailureExists(tail, convert);
      var k :| FailsFirstAt(tail, convert, k);
      assert stream[k + 1] == tail[k];
      forall i | 0 <= i < k + 1
        ensures ItemOk(stream[i], convert)
      {
        if i > 0 {
          assert stream[i] == tail[i - 1];
        }
      }
      assert FailsFirstAt(stream, convert, k + 1);
    }
  }

  /** The reference specification of the walk admits exactly one result. */
  lemma CollectedUnique<T>(stream: Stream, convert: Obj -> Result<T, Err>, r1: Result<seq<T>, Err>, r2: Result<seq<T>, Err>)
    requires Collected(stream, convert, r1) && Collected(stream, convert, r2)
    ensures r1 == r2
  {
    if r1.Success? && r2.Success? {
      assert r1.value == r2.value;
    } else if r1.Failure? && r2.Failure? {
      FirstFailureExists(stream, convert);
      var k :| FailsFirstAt(stream, convert, k);
      assert r1.error == ItemError(stream[k], convert) == r2.error;
    }
  }

  /** The queries of a walk are determined by the stream, the conversion and the starting index. */
  lemma FoldTraceUnique<T>(stream: Stream, convert: Obj -> Result<T, Err>, base: nat, c1: seq<Call>, c2: seq<Call>)
    requires FoldTrace(stream, convert, base, c1) && FoldTrace(stream, convert, base, c2)
    ensures c1 == c2
  {
    if !AllOk(stream, convert) {
      FirstFailureExists(stream, convert);
      var k :| FailsFirstAt(stream, convert, k);
    }
  }

  /** Iterating a sequence view has one possible outcome, queries included. */
  lemma IteratedUnique<T>(s: PySequence, convert: Obj -> Result<T, Err>, r1: Traced<Result<seq<T>, Err>>, r2: Traced<Result<seq<T>, Err>>)
    requires Iterated(s, convert, r1) && Iterated(s, convert, r2)
    ensures r1 == r2
  {
    if GetIter(s).Success? {
      var stream := GetIter(s).value;
      CollectedUnique(stream, convert, r1.value, r2.value);
      FoldTraceUnique(stream, convert, 0, r1.calls[1..], r2.calls[1..]);
      assert r1.calls == [r1.calls[0]] + r1.calls[1..];
      assert r2.calls == [r2.calls[0]] + r2.calls[1..];
    }
  }

  /** The capacity reserved before the walk never changes its outcome. */
  lemma CapacityIrrelevant<T>(s: PySequence, convert: Obj -> Result<T, Err>, c1: nat, c2: nat)
    ensures CollectItems(s, convert, c1) == CollectItems(s, convert, c2)
  {
    IteratedUnique(s, convert, CollectItems(s, convert, c1), CollectItems(s, convert, c2));
  }

  /**
    Two sequences that differ only in what `len()` answers, including one whose
    `len()` raises, extract identically.
   */
  lemma LenHintIrrelevant<T>(h1: Option<nat>, h2: Option<nat>, it: Result<Stream, Err>, probe: Option<Err>,
                             convert: Obj -> Result<T, Err>)
    ensures Extract(Sequence(h1, it, probe), convert) == Extract(Sequence(h2, it, probe), convert)
  {
    var o1, o2 := Sequence(h1, it, probe), Sequence(h2, it, probe);
    var r1, r2 := Extract(o1, convert), Extract(o2, convert);
    var t1, t2 := Traced(r1.value, r1.calls[3..]), Traced(r2.value, r2.calls[3..]);
    assert Iterated(o1, convert, t2);
    IteratedUnique(o1, convert, t1, t2);
    assert r1.calls == r1.calls[..3] + r1.calls[3..];
    assert r2.calls == r2.calls[..3] + r2.calls[3..];
  }

  /**
    When item `k` is the first to fail, the walk ends with that item's exception
    unchanged, after one `next()` per item up to `k` and one conversion per item
    before `k` (and of item `k` itself when the iterator produced it).
   */
  lemma FoldFailsAt<T>(stream: Stream, convert: Obj -> Result<T, Err>, buf: Buffer<T>, k: nat)
    requires FailsFirstAt(stream, convert, k)
    ensures Fold(stream, convert, buf).value == Failure(ItemError(stream[k], convert))
    ensures Fold(stream, convert, buf).calls == StopTrace(|buf.items|, k, stream[k].Success?)
  {
  }

  /**
    Short-circuiting: once item `k` fails, nothing after it matters; replacing
    every later item leaves the walk unchanged, queries included.
   */
  lemma StopsAtFirstFailure<T>(stream: Stream, later: Stream, convert: Obj -> Result<T, Err>, buf: Buffer<T>, k: nat)
    requires FailsFirstAt(stream, convert, k)
    ensures Fold(stream[..k + 1] + later, convert, buf).value == Fold(stream, convert, buf).value
    ensures Fold(stream[..k + 1] + later, convert, buf).calls == Fold(stream, convert, buf).calls
  {
    var cut := stream[..k + 1] + later;
    assert forall i :: 0 <= i <= k ==> cut[i] == stream[i];
    assert FailsFirstAt(cut, convert, k);
    FoldFailsAt(cut, convert, buf, k);
    FoldFailsAt(stream, convert, buf, k);
  }

  /** The queries for `n` converting items touch exactly the items `base` to `base + n - 1`. */
  lemma {:induction false} VisitsTouch(base: nat, n: nat, j: nat)
    ensures ExtractItem(j) in Visits(base, n) <==> base <= j < base + n
    ensures Next(j) in Visits(base, n) <==> base <= j < base + n
    decreases n
  {
    if n > 0 {
      VisitsTouch(base + 1, n - 1, j);
    }
  }

  /**
    A walk stopping at item `k` asks for items `base` to `base + k` and converts
    items `base` to `base + k - 1`, and item `base + k` only when it was produced.
   */
  lemma StopTraceTouches(base: nat, k: nat, produced: bool, j: nat)
    ensures Next(j) in StopTrace(base, k, produced) <==> base <= j <= base + k
    ensures ExtractItem(j) in StopTrace(base, k, produced) <==>
              base <= j < base + k || (produced && j == base + k)
  {
    VisitsTouch(base, k, j);
  }

  /** When item `k` is the first to fail, no later item is asked for or converted. */
  lemma NoConversionAfterFirstFailure<T>(stream: Stream, convert: Obj -> Result<T, Err>, buf: Buffer<T>, k: nat, j: nat)
    requires FailsFirstAt(stream, convert, k)
    ensures ExtractItem(j) in Fold(stream, convert, buf).calls ==> |buf.items| <= j <= |buf.items| + k
    ensures Next(j) in Fold(stream, convert, buf).calls ==> |buf.items| <= j <= |buf.items| + k
  {
    FoldFailsAt(stream, convert, buf, k);
    StopTraceTouches(|buf.items|, k, stream[k].Success?, j);
  }

  /**
    A `str` whose probe raises is not refused: it passes the sequence check and is
    split into one-character strings, whereas a `str` whose probe answers is refused.
   */
  lemma StrProbeErrorFailsOpen<T>(text: string, e: Err, convert: Obj -> Result<T, Err>)
    requires forall i :: 0 <= i < |text| ==> convert(Str([text[i]], None)).Success?
    ensures Extract(Str(text, None), convert).value == Failure(CannotExtractStr)
    ensures Extract(Str(text, Some(e)), convert).value.Success?
    ensures |Extract(Str(text, Some(e)), convert).value.value| == |text|
    ensures forall i :: 0 <= i < |text| ==>
              Extract(Str(text, Some(e)), convert).value.value[i] == convert(Str([text[i]], None)).value
  {
    var o := Str(text, Some(e));
    var r := Extract(o, convert);
    var stream := GetIter(o).value;
    assert forall i :: 0 <= i < |text| ==> ItemOk(stream[i], convert);
    assert Collected(stream, convert, r.value);
  }

  /** A probe that raises on a sequence object acts exactly as a probe answering "not a `str`". */
  lemma SequenceProbeErrorFailsOpen<T>(h: Option<nat>, it: Result<Stream, Err>, e: Err, convert: Obj -> Result<T, Err>)
    ensures Extract(Sequence(h, it, Some(e)), convert) == Extract(Sequence(h, it, None), convert)
  {
    var o1, o2 := Sequence(h, it, Some(e)), Sequence(h, it, None);
    var r1, r2 := Extract(o1, convert), Extract(o2, convert);
    var t1, t2 := Traced(r1.value, r1.calls[3..]), Traced(r2.value, r2.calls[3..]);
    assert Iterated(o1, convert, t2);
    IteratedUnique(o1, convert, t1, t2);
    assert r1.calls == r1.calls[..3] + r1.calls[3..];
    assert r2.calls == r2.calls[..3] + r2.calls[3..];
  }

  /** Extracting from a list whose entries all convert returns those conversions, in order. */
  lemma ExtractFromList<T>(o: Obj, items: seq<T>, f: T -> Obj, convert: Obj -> Result<T, Err>)
    requires StrProbe(o) == Success(false) && PassesSequenceCheck(o)
    requires GetIter(o).Success? && |GetIter(o).value| == |items|
    requires forall i :: 0 <= i < |items| ==> GetIter(o).value[i] == Success(f(items[i]))
    requires forall i :: 0 <= i < |items| ==> convert(f(items[i])) == Success(items[i])
    ensures Extract(o, convert).value == Success(items)
  {
    var r := Extract(o, convert);
    var stream := GetIter(o).value;
    assert AllOk(stream, convert) by {
      forall i | 0 <= i < |stream|
        ensures ItemOk(stream[i], convert)
      {
        assert stream[i] == Success(f(items[i]));
      }
    }
    assert Collected(stream, convert, r.value);
    assert r.value.value == items;
  }

  /** Borrowing round trip: a vector whose elements round-trip comes back unchanged from its list. */
  lemma ToObjectRoundTrip<T>(v: seq<T>, toObject: T -> Obj, convert: Obj -> Result<T, Err>)
    requires forall i :: 0 <= i < |v| ==> convert(toObject(v[i])) == Success(v[i])
    ensures Extract(ToObject(v, toObject), convert).value == Success(v)
  {
    ExtractFromList(ToObject(v, toObject), v, toObject, convert);
  }

  /** Consuming round trip: the list `into_py` builds extracts back to the vector it consumed. */
  lemma IntoPyRoundTrip<T>(v: seq<T>, intoPy: T -> Obj, convert: Obj -> Result<T, Err>)
    requires forall i :: 0 <= i < |v| ==> convert(intoPy(v[i])) == Success(v[i])
    ensures Extract(IntoPy(v, intoPy), convert).value == Success(v)
  {
    ExtractFromList(IntoPy(v, intoPy), v, intoPy, convert);
  }

  /** The borrowing and the consuming conversion build the same list when their element conversions agree. */
  lemma ToObjectMatchesIntoPy<T>(v: seq<T>, f: T -> Obj)
    ensures ToObject(v, f) == IntoPy(v, f)
  {
    var a := seq(|v|, i requires 0 <= i < |v| => f(v[i]));
    assert a == IntoIterMap(v, f);
  }
}
