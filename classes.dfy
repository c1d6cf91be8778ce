/** `get_class_names`: turns class numbers reported by the detector into
    label names through the label table `CLASSES`. */
module Classes {
  import opened Wrappers
  import opened Conversions

  /** The label table `CLASSES`: the detector's single label. */
  const Labels: seq<string> := ["person"]

  /** Raised by `CLASSES[int(i)]` when the index is out of range: where in
      the input the bad number stood, and the index it truncated to. */
  datatype IndexError = IndexError(position: nat, index: int)

  /** Python's `CLASSES[index]`: a negative index counts from the end of the
      list; any other index outside the list raises `IndexError`. */
  function Lookup(index: int): (r: Option<string>)
    ensures r.Some? <==> -|Labels| <= index < |Labels|
    ensures r.Some? ==> r.value in Labels
  {
    if 0 <= index < |Labels| then Some(Labels[index])
    else if -|Labels| <= index < 0 then Some(Labels[|Labels| + index])
    else None
  }

  /** With a one-entry table only the indices 0 and -1 are in range, and both
      name a person. */
  lemma LookupInRange(index: int)
    ensures Lookup(index) == if index == 0 || index == -1 then Some("person") else None
  {
  }

  /** A class number is accepted exactly when `int()` maps it to 0 or -1,
      that is when it lies strictly between -2 and 1. */
  lemma ClassNumberAccepted(x: real)
    ensures Lookup(Trunc(x)).Some? <==> -2.0 < x < 1.0
  {
  }

  /** `get_class_names`: the label of every number, in order, or the error
      raised at the first number whose index is out of range. */
  method GetClassNames(classNums: seq<real>) returns (r: Result<seq<string>, IndexError>)
    ensures r.Success? <==> forall k :: 0 <= k < |classNums| ==> Lookup(Trunc(classNums[k])).Some?
    ensures r.Success? ==>
              |r.value| == |classNums| &&
              forall k :: 0 <= k < |classNums| ==> Lookup(Trunc(classNums[k])) == Some(r.value[k])
    ensures r.Failure? ==>
              var p := r.error.position;
              p < |classNums| && r.error.index == Trunc(classNums[p]) &&
              Lookup(Trunc(classNums[p])).None? &&
              forall k :: 0 <= k < p ==> Lookup(Trunc(classNums[k])).Some?
  {
    var classNames: seq<string> := [];
    var k := 0;
    while k < |classNums|
      invariant 0 <= k <= |classNums|
      invariant |classNames| == k
      invariant forall j :: 0 <= j < k ==> Lookup(Trunc(classNums[j])) == Some(classNames[j])
    {
      var i := classNums[k];
      var name := Lookup(Trunc(i));
      if name.None? {
        return Failure(IndexError(k, Trunc(i)));
      }
      classNames := classNames + [name.value];
      k := k + 1;
    }
    return Success(classNames);
  }
}
