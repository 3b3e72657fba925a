/**
  The part of the Python runtime the tinyvec conversions talk to, as values.

  An object is a string, an object that passes the runtime's sequence check, or
  anything else. Every object also says whether asking the runtime "is this an
  instance of `str`?" raises. A sequence carries the answer its `len()` gives
  (absent when `len()` raises) and what `iter()` gives: either the exception it
  raises or the finite stream of results `next()` produces, so that an
  exception can appear in the middle of an iteration.
 */
module PyHost {
  import opened Wrappers

  /** An exception raised in the runtime. */
  datatype Err =
    | CannotExtractStr          // the `TypeError` raised for `str` inputs
    | DowncastFailed(target: string)  // the `PyDowncastError` naming the expected type
    | Raised(exception: nat)    // any other exception, raised by the runtime or an element conversion

  /** What successive calls to `next()` on an iterator return, in order. */
  type Stream = seq<Result<Obj, Err>>

  datatype Obj =
    | Str(text: string, strProbe: Option<Err>)
    | Sequence(lenHint: Option<nat>, iter: Result<Stream, Err>, strProbe: Option<Err>)
    | Other(strProbe: Option<Err>)

  /** The answer to `is_instance_of::<PyString>`: the exception the check raises, or whether `o` is a `str`. */
  function StrProbe(o: Obj): Result<bool, Err> {
    match o.strProbe
    case Some(e) => Failure(e)
    case None => Success(o.Str?)
  }

  /** The sequence check: `str` objects and sequence objects pass it, nothing else does. */
  predicate PassesSequenceCheck(o: Obj) {
    o.Str? || o.Sequence?
  }

  /** A borrowed view of an object known to pass the sequence check: only such a view can be measured or iterated. */
  type PySequence = o: Obj | PassesSequenceCheck(o) witness Sequence(None, Success([]), None)

  /** The checked downcast to a sequence view, failing with a downcast error naming "Sequence". */
  function DowncastSequence(o: Obj): (r: Result<PySequence, Err>)
    ensures r.Success? <==> PassesSequenceCheck(o)
    ensures r.Success? ==> r.value == o
    ensures r.Failure? ==> r.error == DowncastFailed("Sequence")
  {
    if PassesSequenceCheck(o) then Success(o) else Failure(DowncastFailed("Sequence"))
  }

  /** `len()` on a sequence view; `None` when it raises. */
  function LenQuery(s: PySequence): Option<nat> {
    match s
    case Str(text, _) => Some(|text|)
    case Sequence(hint, _, _) => hint
  }

  /** `iter()` on a sequence view: a string yields its characters as one-character strings. */
  function GetIter(s: PySequence): Result<Stream, Err> {
    match s
    case Str(text, _) => Success(seq(|text|, i requires 0 <= i < |text| => Success(Str([text[i]], None))))
    case Sequence(_, it, _) => it
  }

  /** A fresh list object holding `items` in order. */
  function NewList(items: seq<Obj>): (r: Obj)
    ensures StrProbe(r) == Success(false)
    ensures PassesSequenceCheck(r)
    ensures LenQuery(r) == Some(|items|)
    ensures GetIter(r).Success? && |GetIter(r).value| == |items|
    ensures forall i :: 0 <= i < |items| ==> GetIter(r).value[i] == Success(items[i])
  {
    Sequence(Some(|items|), Success(seq(|items|, i requires 0 <= i < |items| => Success(items[i]))), None)
  }
}
