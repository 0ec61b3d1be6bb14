/** helpers.go: order-preserving de-duplication, the maximum of a list, the
    file-name step of GetFilename, and UnmarshalJSON's failure path. */
module Helpers {
  import opened Seqs
  import opened Exceptions

  /** RemoveDuplicates: walks the list once, keeping an item the first time
      it is met. */
  method RemoveDuplicates<T(==)>(sliceList: seq<T>) returns (list: seq<T>)
    ensures list == Dedupe(sliceList)
    ensures Distinct(list) && forall y :: y in list <==> y in sliceList
  {
    var allKeys: map<T, bool> := map[];
    list := [];
    var i := 0;
    while i < |sliceList|
      invariant 0 <= i <= |sliceList|
      invariant forall y :: y in allKeys <==> y in sliceList[..i]
      invariant list == Dedupe(sliceList[..i])
    {
      var item := sliceList[i];
      assert sliceList[..i + 1][..i] == sliceList[..i];
      if item !in allKeys {
        allKeys := allKeys[item := true];
        list := list + [item];
      }
      i := i + 1;
    }
    assert sliceList[..i] == sliceList;
    DedupeDistinct(sliceList);
    DedupeSet(sliceList);
  }

  /** MaxInt: reads slice[0] first, so an empty slice panics with an index
      error; otherwise the largest element is returned. */
  method MaxInt(slice: seq<int>) returns (r: Outcome<int>)
    ensures r.Panicked? <==> |slice| == 0
    ensures r.Panicked? ==> r.p == Other("runtime error: index out of range [0] with length 0")
    ensures r.Returned? ==> r.value in slice && forall i :: 0 <= i < |slice| ==> slice[i] <= r.value
  {
    if |slice| == 0 {
      return Panicked(Other("runtime error: index out of range [0] with length 0"));
    }
    var max := slice[0];
    var i := 0;
    while i < |slice|
      invariant 0 <= i <= |slice|
      invariant max in slice
      invariant forall j :: 0 <= j < i ==> slice[j] <= max
    {
      if slice[i] > max {
        max := slice[i];
      }
      i := i + 1;
    }
    return Returned(max);
  }

  /** The string step of GetFilename: the last '.'-separated part of the
      function name, then the last '/'-separated part of that. */
  function FileName(funcName: string): (r: string)
    ensures '.' !in r && '/' !in r
    ensures |r| <= |funcName| && funcName[|funcName| - |r|..] == r
  {
    var functionAndFile := LastPart(funcName, '.');
    LastPartSuffix(funcName, '.');
    LastPartSuffix(functionAndFile, '/');
    var r := LastPart(functionAndFile, '/');
    assert funcName[|funcName| - |functionAndFile|..][|functionAndFile| - |r|..] == funcName[|funcName| - |r|..];
    r
  }

  /** Whatever precedes the file name ends with a '.' or a '/'. */
  lemma FileNameBoundary(funcName: string)
    requires |FileName(funcName)| < |funcName|
    ensures funcName[|funcName| - |FileName(funcName)| - 1] in {'.', '/'}
  {
    var f := LastPart(funcName, '.');
    LastPartSuffix(funcName, '.');
    LastPartSuffix(f, '/');
    var r := LastPart(f, '/');
    assert FileName(funcName) == r;
    var n, lf, lr := |funcName|, |f|, |r|;
    assert f == funcName[n - lf..];
    if lr < lf {
      assert f[lf - lr - 1] == '/';
      assert funcName[n - lr - 1] == f[lf - lr - 1];
    } else {
      assert funcName[n - lf - 1] == '.';
    }
  }

  /** UnmarshalJSON: `decodeError` is what json.Unmarshal reported (Nil on
      success). The function never returns an error: a failure raises
      InternalServerError with the decoder's error instead. */
  function UnmarshalJSON(decodeError: Value): (r: Outcome<Value>)
    ensures r.Returned? ==> r.value == Nil
    ensures r.Panicked? <==> decodeError != Nil
    ensures r.Panicked? ==> r.p.Custom? && r.p.ce.statusCode == 500 && r.p.ce.errorMsg == decodeError
  {
    if decodeError != Nil then Panicked(InternalServerError(decodeError)) else Returned(Nil)
  }
}
