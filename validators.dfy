/** validators.go: ValidateRequest binds the request body and, when binding
    fails with validation errors, raises BadRequest with one message per
    field, keyed by the field's JSON name. */
module Validators {
  import opened Seqs
  import opened Exceptions

  /** getErrorMsg. */
  function GetErrorMsg(tag: string, fieldName: string): (r: string)
    ensures tag == "required" ==> r == fieldName + " is a required field"
    ensures tag != "required" ==> r == "Request data format is not supported"
  {
    if tag == "required" then fieldName + " is a required field"
    else "Request data format is not supported"
  }

  /** A "required" message names its field, so different fields get
      different messages. */
  lemma RequiredMessageNamesField(f1: string, f2: string)
    requires GetErrorMsg("required", f1) == GetErrorMsg("required", f2)
    ensures f1 == f2
  {
    var suffix := " is a required field";
    assert |f1| == |f2|;
    assert f1 == GetErrorMsg("required", f1)[..|f1|];
    assert f2 == GetErrorMsg("required", f2)[..|f2|];
  }

  /** The name part of a JSON struct tag: the text before its first ','. */
  function TagName(jsonTag: string): (r: string)
    ensures |r| <= |jsonTag| && r == jsonTag[..|r|] && ',' !in r
    ensures |r| < |jsonTag| ==> jsonTag[|r|] == ','
  {
    var parts := Split(jsonTag, ',');
    SplitJoin(jsonTag, ',');
    if |parts| > 1 then
      assert jsonTag == parts[0] + [','] + Join(parts[1..], [',']);
      assert jsonTag[..|parts[0]|] == parts[0];
      parts[0]
    else
      parts[0]
  }

  /** getFieldJSONTagName: `jsonTags` maps each struct field that has a json
      tag to that tag; a field without one (or no such field) has tag "",
      whose name is "". */
  function FieldJSONTagName(jsonTags: map<string, string>, fieldName: string): (r: string)
    ensures fieldName !in jsonTags ==> r == ""
    ensures fieldName in jsonTags && ',' !in jsonTags[fieldName] ==> r == jsonTags[fieldName]
  {
    TagName(if fieldName in jsonTags then jsonTags[fieldName] else "")
  }

  datatype FieldError = FieldError(field: string, tag: string)

  /** What ShouldBindJSON reported. */
  datatype BindResult = Bound | ValidationErrors(errs: seq<FieldError>) | OtherBindError(message: string)

  function NameOf(jsonTags: map<string, string>, fe: FieldError): string
  {
    FieldJSONTagName(jsonTags, fe.field)
  }

  function MessageOf(jsonTags: map<string, string>, fe: FieldError): string
  {
    GetErrorMsg(fe.tag, NameOf(jsonTags, fe))
  }

  /** The (name, message) pair each error contributes. */
  function Entries(jsonTags: map<string, string>, errs: seq<FieldError>): (r: seq<(string, string)>)
    ensures |r| == |errs|
    ensures forall i :: 0 <= i < |errs| ==> r[i] == (NameOf(jsonTags, errs[i]), MessageOf(jsonTags, errs[i]))
  {
    seq(|errs|, i requires 0 <= i < |errs| => (NameOf(jsonTags, errs[i]), MessageOf(jsonTags, errs[i])))
  }

  /** A map filled by assigning the pairs in order. */
  function Assign(pairs: seq<(string, string)>): map<string, string>
  {
    if pairs == [] then map[]
    else Assign(pairs[..|pairs| - 1])[pairs[|pairs| - 1].0 := pairs[|pairs| - 1].1]
  }

  /** Every assigned key is present, holding the value of its last
      assignment. */
  lemma AssignLastWins(pairs: seq<(string, string)>, k: string)
    ensures k in Assign(pairs) <==> exists i :: 0 <= i < |pairs| && pairs[i].0 == k
    ensures k in Assign(pairs) ==>
      exists i :: 0 <= i < |pairs| && pairs[i].0 == k && Assign(pairs)[k] == pairs[i].1
        && forall j :: i < j < |pairs| ==> pairs[j].0 != k
  {
    AssignDomain(pairs, k);
    if k in Assign(pairs) {
      var i := AssignValue(pairs, k);
    }
  }

  lemma {:induction false} AssignDomain(pairs: seq<(string, string)>, k: string)
    ensures k in Assign(pairs) <==> exists i :: 0 <= i < |pairs| && pairs[i].0 == k
  {
    if pairs != [] {
      var p, n := pairs[..|pairs| - 1], |pairs| - 1;
      AssignDomain(p, k);
      if exists i :: 0 <= i < |pairs| && pairs[i].0 == k {
        var i :| 0 <= i < |pairs| && pairs[i].0 == k;
        if i < n {
          assert p[i] == pairs[i];
        }
      }
      if exists i :: 0 <= i < |p| && p[i].0 == k {
        var i :| 0 <= i < |p| && p[i].0 == k;
        assert pairs[i] == p[i];
      }
    }
  }

  /** The position of the last assignment to a present key. */
  lemma {:induction false} AssignValue(pairs: seq<(string, string)>, k: string) returns (i: nat)
    requires k in Assign(pairs)
    ensures i < |pairs| && pairs[i].0 == k && Assign(pairs)[k] == pairs[i].1
    ensures forall j :: i < j < |pairs| ==> pairs[j].0 != k
  {
    var p, n := pairs[..|pairs| - 1], |pairs| - 1;
    if pairs[n].0 == k {
      i := n;
    } else {
      assert k in Assign(p);
      i := AssignValue(p, k);
      assert pairs[i] == p[i];
      forall j | i < j < |pairs|
        ensures pairs[j].0 != k
      {
        if j < n {
          assert pairs[j] == p[j];
        }
      }
    }
  }

  /** The message map after entering the errors in order; a later error for
      the same name overwrites an earlier one. */
  function Messages(jsonTags: map<string, string>, errs: seq<FieldError>): map<string, string>
  {
    Assign(Entries(jsonTags, errs))
  }

  /** Every reported field has an entry under its JSON name, holding the
      message of the last error reported under that name. */
  lemma MessagesLastWins(jsonTags: map<string, string>, errs: seq<FieldError>, k: string)
    ensures k in Messages(jsonTags, errs) <==> exists i :: 0 <= i < |errs| && NameOf(jsonTags, errs[i]) == k
    ensures k in Messages(jsonTags, errs) ==>
      exists i :: 0 <= i < |errs| && NameOf(jsonTags, errs[i]) == k
        && Messages(jsonTags, errs)[k] == MessageOf(jsonTags, errs[i])
        && forall j :: i < j < |errs| ==> NameOf(jsonTags, errs[j]) != k
  {
    var e := Entries(jsonTags, errs);
    AssignLastWins(e, k);
    if exists i :: 0 <= i < |errs| && NameOf(jsonTags, errs[i]) == k {
      var i :| 0 <= i < |errs| && NameOf(jsonTags, errs[i]) == k;
      assert e[i].0 == k;
    }
    if k in Messages(jsonTags, errs) {
      var i :| 0 <= i < |e| && e[i].0 == k && Assign(e)[k] == e[i].1
        && forall j :: i < j < |e| ==> e[j].0 != k;
      forall j | i < j < |errs|
        ensures NameOf(jsonTags, errs[j]) != k
      {
        assert e[j].0 != k;
      }
    }
  }

  /** Entering one more error assigns its message under its name. */
  lemma MessagesStep(jsonTags: map<string, string>, errs: seq<FieldError>, i: nat)
    requires i < |errs|
    ensures var name := FieldJSONTagName(jsonTags, errs[i].field);
      Messages(jsonTags, errs[..i + 1]) == Messages(jsonTags, errs[..i])[name := GetErrorMsg(errs[i].tag, name)]
  {
    var pre, post := Entries(jsonTags, errs[..i]), Entries(jsonTags, errs[..i + 1]);
    assert post[..i] == pre;
    assert errs[..i + 1][i] == errs[i];
    assert post[i] == (NameOf(jsonTags, errs[i]), MessageOf(jsonTags, errs[i]));
  }

  /** ValidateRequest: raises BadRequest carrying the message map exactly
      when binding failed with validation errors; any other bind error is
      dropped and the request goes on. */
  method ValidateRequest(bind: BindResult, jsonTags: map<string, string>) returns (r: Outcome<()>)
    ensures r.Panicked? <==> bind.ValidationErrors?
    ensures bind.ValidationErrors? ==> r == Panicked(BadRequest(Fields(Messages(jsonTags, bind.errs))))
  {
    if !bind.Bound? {
      var validationErrors: map<string, string> := map[];
      if bind.ValidationErrors? {
        var ve := bind.errs;
        var i := 0;
        while i < |ve|
          invariant 0 <= i <= |ve|
          invariant validationErrors == Messages(jsonTags, ve[..i])
        {
          var fieldName := FieldJSONTagName(jsonTags, ve[i].field);
          MessagesStep(jsonTags, ve, i);
          validationErrors := validationErrors[fieldName := GetErrorMsg(ve[i].tag, fieldName)];
          i := i + 1;
        }
        assert ve[..i] == ve;
        return Panicked(BadRequest(Fields(validationErrors)));
      }
    }
    return Returned(());
  }
}
