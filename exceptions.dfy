/** custom_exceptions.go: the CustomError carried by every deliberate panic,
    its Error() text, and the raisers that build one with a fixed status
    and panic with it. A panic is a value here: a raiser returns the value
    it panics with, and code that may panic returns an Outcome. */
module Exceptions {
  import opened Seqs

  /** The dynamic values that travel in `interface{}` and `error` slots:
      nil, a string, an error (rendered by its Error() text) and a
      string-to-string map such as the validation message map. */
  datatype Value = Nil | Text(s: string) | Fault(message: string) | Fields(m: map<string, string>)

  datatype CustomError = CustomError(err: Value, errorMsg: Value, statusCode: int)

  /** What a panic carries: a CustomError, or anything else (a runtime error,
      a foreign library's panic), described by its text. */
  datatype Panic = Custom(ce: CustomError) | Other(description: string)

  /** A call either returns its value or panics. */
  datatype Outcome<T> = Returned(value: T) | Panicked(p: Panic)

  predicate IsMinKey(k: string, s: set<string>)
  {
    k in s && forall j :: j in s ==> j == k || LexLess(k, j)
  }

  lemma {:induction false} MinKeyExists(s: set<string>)
    requires s != {}
    ensures exists k :: IsMinKey(k, s)
    decreases |s|
  {
    var x :| x in s;
    if s != {x} {
      var t := s - {x};
      MinKeyExists(t);
      var m :| IsMinKey(m, t);
      LexLessTotal(x, m);
      if LexLess(x, m) {
        forall j | j in s
          ensures j == x || LexLess(x, j)
        {
          if j != x && j != m {
            LexLessTransitive(x, m, j);
          }
        }
        assert IsMinKey(x, s);
      } else {
        assert IsMinKey(m, s);
      }
    } else {
      LexLessIrreflexive(x);
      assert IsMinKey(x, s);
    }
  }

  lemma MinKeyUnique(s: set<string>)
    ensures forall a, b :: IsMinKey(a, s) && IsMinKey(b, s) ==> a == b
  {
    forall a, b | IsMinKey(a, s) && IsMinKey(b, s)
      ensures a == b
    {
      if a != b {
        LexLessTransitive(a, b, a);
        LexLessIrreflexive(a);
      }
    }
  }

  /** The keys of a set in ascending string order, which is how fmt prints
      the entries of a map. */
  function SortedKeys(s: set<string>): (r: seq<string>)
    ensures |r| == |s| && forall k :: k in r <==> k in s
    ensures forall i :: 0 <= i < |r| - 1 ==> LexLess(r[i], r[i + 1])
    decreases |s|
  {
    if s == {} then []
    else
      MinKeyExists(s);
      MinKeyUnique(s);
      var k :| IsMinKey(k, s);
      var rest := SortedKeys(s - {k});
      assert forall j :: j in rest ==> LexLess(k, j);
      [k] + rest
  }

  /** fmt's %s of a Value. */
  function Render(v: Value): string
  {
    match v
    case Nil => "%!s(<nil>)"
    case Text(s) => s
    case Fault(message) => message
    case Fields(m) =>
      var ks := SortedKeys(m.Keys);
      "map[" + Join(seq(|ks|, i requires 0 <= i < |ks| => ks[i] + ":" + m[ks[i]]), " ") + "]"
  }

  /** CustomError.Error(): "<Err>: <ErrorMsg> ", with a trailing space. */
  function ErrorText(ce: CustomError): (r: string)
    ensures |r| == |Render(ce.err)| + |Render(ce.errorMsg)| + 3 && r[|r| - 1] == ' '
    ensures r[..|Render(ce.err)| + 2] == Render(ce.err) + ": "
    ensures r[|Render(ce.err)| + 2..|r| - 1] == Render(ce.errorMsg)
  {
    var e, m := Render(ce.err), Render(ce.errorMsg);
    var r := e + ": " + m + " ";
    assert r[..|e| + 2] == e + ": ";
    assert r[|e| + 2..|r| - 1] == m;
    r
  }

  /** Two errors with the same Err text render the same Error() text only
      when their messages render alike. */
  lemma ErrorTextDeterminesMessage(a: CustomError, b: CustomError)
    requires Render(a.err) == Render(b.err)
    ensures ErrorText(a) == ErrorText(b) <==> Render(a.errorMsg) == Render(b.errorMsg)
  {
    var ra, rb := ErrorText(a), ErrorText(b);
    if ra == rb {
      assert ra[|Render(a.err)| + 2..|ra| - 1] == rb[|Render(b.err)| + 2..|rb| - 1];
    }
  }

  /** raiseError: panics with a CustomError built from its arguments. */
  function RaiseError(err: Value, errMsg: Value, statusCode: int): (p: Panic)
    ensures p.Custom? && p.ce.err == err && p.ce.errorMsg == errMsg && p.ce.statusCode == statusCode
  {
    Custom(CustomError(err, errMsg, statusCode))
  }

  function BadRequest(errMsg: Value): (p: Panic)
    ensures p.Custom? && p.ce.statusCode == 400 && p.ce.err == Fault("Bad Request") && p.ce.errorMsg == errMsg
  {
    RaiseError(Fault("Bad Request"), errMsg, 400)
  }

  function NotFoundError(errMsg: Value): (p: Panic)
    ensures p.Custom? && p.ce.statusCode == 404 && p.ce.err == Fault("Not Found Error") && p.ce.errorMsg == errMsg
  {
    RaiseError(Fault("Not Found Error"), errMsg, 404)
  }

  /** Raises status 500 (the comment above it in the source says 404). */
  function InternalServerError(errMsg: Value): (p: Panic)
    ensures p.Custom? && p.ce.statusCode == 500 && p.ce.err == Fault("Internal Server Error") && p.ce.errorMsg == errMsg
  {
    RaiseError(Fault("Internal Server Error"), errMsg, 500)
  }
}
