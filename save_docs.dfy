/** SaveCustomerDocuments of saveDocmain.go: the documents already stored
    for a customer seed a set of seen numbers, incoming documents whose
    number is new are kept (and their number marked seen), and one response
    is chosen from a fixed ladder. The Mongo find, decode and the two updates
    are outcome parameters; the updates attempted are returned. */
module SaveDocs {

  datatype Doc = Doc(number: string, docType: string)

  /** What the customer lookup produced. */
  datatype Lookup = FindFailed | DecodeFailed | Found(docs: seq<Doc>)

  /** models.Data{} is Data(0, ""); a nil Data field is NoData. */
  datatype Payload = NoData | Data(totalAdded: int, docsLastUpdated: string)

  datatype SaveResponse = SaveResponse(message: string, responseCode: int, success: bool, data: Payload)

  /** The two UpdateOne calls: push the new documents to the customer, and
      stamp the device record. */
  datatype UpdateCall =
    | PushDocs(userRef: string, docs: seq<Doc>, date: string)
    | StampDevice(deviceId: string, date: string)

  const StatusOK := 200
  const StatusInternalServerError := 500

  const FindError := SaveResponse("error while finding data", StatusInternalServerError, false, Data(0, ""))
  const DecodeError := SaveResponse("failed while decoding document details from DB", StatusInternalServerError, false, Data(0, ""))
  const NoDocs := SaveResponse("No docs found to insert", 0, false, NoData)
  const DeviceUpdateError := SaveResponse("failed while updating docs_last_updated_datetime details in customer device collection", StatusInternalServerError, false, Data(0, ""))
  const DocsUpdateError := SaveResponse("failed while updating document details in DB", StatusInternalServerError, false, Data(0, ""))
  const Duplicates := SaveResponse("Duplicate documents found.", StatusOK, false, NoData)
  const Required := SaveResponse("Docs are required.", StatusOK, false, NoData)

  function Saved(count: int, date: string): SaveResponse
  {
    SaveResponse("Docs saved successfully", StatusOK, true, Data(count, date))
  }

  /** isEmptyDocument. */
  predicate IsEmptyDocument(doc: Doc)
  {
    doc.number == "" && doc.docType == ""
  }

  predicate AllEmpty(docs: seq<Doc>)
  {
    forall i :: 0 <= i < |docs| ==> IsEmptyDocument(docs[i])
  }

  function Numbers(docs: seq<Doc>): (r: seq<string>)
    ensures |r| == |docs| && forall i :: 0 <= i < |docs| ==> r[i] == docs[i].number
  {
    if docs == [] then [] else Numbers(docs[..|docs| - 1]) + [docs[|docs| - 1].number]
  }

  /** The numbers the stored documents mark as seen: the non-empty ones. */
  function Seed(existing: seq<Doc>): set<string>
  {
    if existing == [] then {}
    else (var n := existing[|existing| - 1].number;
          Seed(existing[..|existing| - 1]) + (if n != "" then {n} else {}))
  }

  lemma {:induction false} SeedMembers(existing: seq<Doc>, x: string)
    ensures x in Seed(existing) <==> x != "" && x in Numbers(existing)
  {
    if existing != [] {
      SeedMembers(existing[..|existing| - 1], x);
    }
  }

  /** The incoming documents kept: one is kept exactly when its number is
      neither seen before the call nor carried by an earlier incoming
      document. */
  function NewDocs(seen: set<string>, data: seq<Doc>): (r: seq<Doc>)
    ensures |r| <= |data|
  {
    if data == [] then []
    else
      var p, v := data[..|data| - 1], data[|data| - 1];
      if v.number in seen || v.number in Numbers(p) then NewDocs(seen, p) else NewDocs(seen, p) + [v]
  }

  /** Some incoming document was turned away as a duplicate. */
  predicate DuplicateFound(seen: set<string>, data: seq<Doc>)
  {
    exists i :: 0 <= i < |data| && (data[i].number in seen || data[i].number in Numbers(data[..i]))
  }

  lemma PrefixNumbers(data: seq<Doc>, i: int)
    requires 0 <= i < |data|
    ensures Numbers(data[..i + 1]) == Numbers(data[..i]) + [data[i].number]
  {
    assert data[..i + 1][..i] == data[..i];
  }

  /** A number is among the kept documents exactly when it was not seen and
      some incoming document carries it. */
  lemma {:induction false} NewDocsNumbers(seen: set<string>, data: seq<Doc>, x: string)
    ensures x in Numbers(NewDocs(seen, data)) <==> x !in seen && x in Numbers(data)
  {
    if data != [] {
      var p, v := data[..|data| - 1], data[|data| - 1];
      NewDocsNumbers(seen, p, x);
      var k := NewDocs(seen, p);
      if !(v.number in seen || v.number in Numbers(p)) {
        assert (k + [v])[..|k + [v]| - 1] == k;
      }
    }
  }

  /** The kept documents carry pairwise-distinct numbers, none of them seen
      before. */
  lemma {:induction false} NewDocsDistinct(seen: set<string>, data: seq<Doc>)
    ensures forall i, j :: 0 <= i < j < |NewDocs(seen, data)| ==>
      NewDocs(seen, data)[i].number != NewDocs(seen, data)[j].number
    ensures forall i :: 0 <= i < |NewDocs(seen, data)| ==> NewDocs(seen, data)[i].number !in seen
  {
    if data != [] {
      var p, v := data[..|data| - 1], data[|data| - 1];
      NewDocsDistinct(seen, p);
      var k := NewDocs(seen, p);
      if !(v.number in seen || v.number in Numbers(p)) {
        forall i | 0 <= i < |k|
          ensures k[i].number != v.number
        {
          assert Numbers(k)[i] == k[i].number;
          NewDocsNumbers(seen, p, k[i].number);
        }
      }
    }
  }

  /** Documents are turned away exactly when fewer are kept than came in. */
  lemma {:induction false} DuplicateIffDropped(seen: set<string>, data: seq<Doc>)
    ensures DuplicateFound(seen, data) <==> |NewDocs(seen, data)| < |data|
  {
    if data != [] {
      var n := |data| - 1;
      var p := data[..n];
      DuplicateIffDropped(seen, p);
      DuplicateStep(seen, data, n);
      assert data[..n + 1] == data;
    }
  }

  /** With nothing new, an empty request gets "Docs are required." and a
      non-empty one has seen a duplicate. */
  lemma NothingNew(seen: set<string>, data: seq<Doc>)
    requires NewDocs(seen, data) == []
    ensures DuplicateFound(seen, data) <==> data != []
  {
    DuplicateIffDropped(seen, data);
  }

  /** Kept documents with distinct numbers are all empty only when there is
      exactly one of them, the single document with empty number and type. */
  lemma AllEmptyIsSingle(seen: set<string>, data: seq<Doc>)
    requires |NewDocs(seen, data)| >= 1 && AllEmpty(NewDocs(seen, data))
    ensures NewDocs(seen, data) == [Doc("", "")]
  {
    var k := NewDocs(seen, data);
    NewDocsDistinct(seen, data);
    assert k[0].number == k[|k| - 1].number;
  }

  lemma DuplicateStep(seen: set<string>, data: seq<Doc>, i: int)
    requires 0 <= i < |data|
    ensures DuplicateFound(seen, data[..i + 1])
        <==> DuplicateFound(seen, data[..i]) || data[i].number in seen || data[i].number in Numbers(data[..i])
  {
    assert data[..i + 1] == data[..i] + [data[i]];
    DuplicateSnoc(seen, data[..i], data[i]);
  }

  lemma DuplicateSnoc(seen: set<string>, p: seq<Doc>, v: Doc)
    ensures DuplicateFound(seen, p + [v])
        <==> DuplicateFound(seen, p) || v.number in seen || v.number in Numbers(p)
  {
    if DuplicateFound(seen, p + [v]) {
      DuplicateShrink(seen, p, v);
    }
    if DuplicateFound(seen, p) {
      DuplicateGrow(seen, p, v);
    }
    if v.number in seen || v.number in Numbers(p) {
      var q := p + [v];
      assert q[|p|] == v && q[..|p|] == p;
    }
  }

  /** A duplicate in the last document is either there or in an earlier one. */
  lemma DuplicateShrink(seen: set<string>, p: seq<Doc>, v: Doc)
    requires DuplicateFound(seen, p + [v])
    ensures DuplicateFound(seen, p) || v.number in seen || v.number in Numbers(p)
  {
    var q := p + [v];
    var j :| 0 <= j < |q| && (q[j].number in seen || q[j].number in Numbers(q[..j]));
    if j < |p| {
      assert q[j] == p[j] && q[..j] == p[..j];
    } else {
      assert q[j] == v && q[..j] == p;
    }
  }

  /** A duplicate stays one when a document is added after it. */
  lemma DuplicateGrow(seen: set<string>, p: seq<Doc>, v: Doc)
    requires DuplicateFound(seen, p)
    ensures DuplicateFound(seen, p + [v])
  {
    var q := p + [v];
    var j :| 0 <= j < |p| && (p[j].number in seen || p[j].number in Numbers(p[..j]));
    assert q[j] == p[j] && q[..j] == p[..j];
  }

  lemma NewDocsStep(seen: set<string>, data: seq<Doc>, i: int)
    requires 0 <= i < |data|
    ensures NewDocs(seen, data[..i + 1])
         == if data[i].number in seen || data[i].number in Numbers(data[..i])
            then NewDocs(seen, data[..i]) else NewDocs(seen, data[..i]) + [data[i]]
  {
    assert data[..i + 1][..i] == data[..i];
  }

  /** The seeding loop: every stored document with a non-empty number is
      entered under that number. */
  method SeedMap(existing: seq<Doc>) returns (mapOfDoc: map<string, Doc>)
    ensures forall x :: x in mapOfDoc <==> x in Seed(existing)
  {
    mapOfDoc := map[];
    var i := 0;
    while i < |existing|
      invariant 0 <= i <= |existing|
      invariant forall x :: x in mapOfDoc <==> x in Seed(existing[..i])
    {
      assert existing[..i + 1][..i] == existing[..i];
      if existing[i].number != "" {
        mapOfDoc := mapOfDoc[existing[i].number := existing[i]];
      }
      i := i + 1;
    }
    assert existing[..i] == existing;
  }

  /** The filtering loop: a document whose number is not yet in the map is
      kept and entered; any other sets the duplicate flag. */
  method FilterNew(mapOfDoc0: map<string, Doc>, data: seq<Doc>, ghost seen: set<string>)
    returns (arrOfDoc: seq<Doc>, newDocCount: int, duplicateDocFound: bool)
    requires forall x :: x in mapOfDoc0 <==> x in seen
    ensures arrOfDoc == NewDocs(seen, data) && newDocCount == |arrOfDoc|
    ensures duplicateDocFound <==> DuplicateFound(seen, data)
  {
    var mapOfDoc := mapOfDoc0;
    arrOfDoc := [];
    newDocCount := 0;
    duplicateDocFound := false;
    var i := 0;
    ghost var ns: seq<string> := [];
    while i < |data|
      invariant 0 <= i <= |data| && ns == Numbers(data[..i])
      invariant forall x :: x in mapOfDoc <==> x in seen || x in ns
      invariant arrOfDoc == NewDocs(seen, data[..i]) && newDocCount == |arrOfDoc|
      invariant duplicateDocFound <==> DuplicateFound(seen, data[..i])
    {
      var v := data[i];
      PrefixNumbers(data, i);
      DuplicateStep(seen, data, i);
      NewDocsStep(seen, data, i);
      assert v.number in mapOfDoc <==> v.number in seen || v.number in ns;
      ns := ns + [v.number];
      if v.number !in mapOfDoc {
        mapOfDoc := mapOfDoc[v.number := v];
        arrOfDoc := arrOfDoc + [v];
        newDocCount := newDocCount + 1;
      } else {
        duplicateDocFound := true;
      }
      i := i + 1;
    }
    assert data[..i] == data;
  }

  /** The scan for a non-empty document, stopping at the first one. */
  method AllEmptyScan(arrOfDoc: seq<Doc>) returns (isEmptyDoc: bool)
    ensures isEmptyDoc <==> AllEmpty(arrOfDoc)
  {
    isEmptyDoc := true;
    var j := 0;
    while j < |arrOfDoc|
      invariant 0 <= j <= |arrOfDoc|
      invariant isEmptyDoc && AllEmpty(arrOfDoc[..j])
    {
      if !IsEmptyDocument(arrOfDoc[j]) {
        isEmptyDoc := false;
        break;
      }
      j := j + 1;
    }
    if isEmptyDoc {
      assert arrOfDoc[..j] == arrOfDoc;
    }
  }

  /** SaveCustomerDocuments. */
  method SaveCustomerDocuments(data: seq<Doc>, userRef: string, deviceId: string, lookup: Lookup,
                               docsUpdateFails: bool, deviceUpdateFails: bool, date: string)
    returns (response: SaveResponse, updates: seq<UpdateCall>)
    ensures lookup.FindFailed? ==> response == FindError && updates == []
    ensures lookup.DecodeFailed? ==> response == DecodeError && updates == []
    ensures lookup.Found? ==>
      var kept := NewDocs(Seed(lookup.docs), data);
      if |kept| >= 1 then
        if AllEmpty(kept) then response == NoDocs && updates == []
        else
          updates == [PushDocs(userRef, kept, date), StampDevice(deviceId, date)]
          && response == (if deviceUpdateFails then DeviceUpdateError
                          else if docsUpdateFails then DocsUpdateError
                          else Saved(|kept|, date))
      else
        updates == [] && response == (if DuplicateFound(Seed(lookup.docs), data) then Duplicates else Required)
  {
    updates := [];
    if lookup.FindFailed? {
      return FindError, updates;
    }
    if lookup.DecodeFailed? {
      return DecodeError, updates;
    }
    var mapOfDoc := SeedMap(lookup.docs);
    var arrOfDoc, newDocCount, duplicateDocFound := FilterNew(mapOfDoc, data, Seed(lookup.docs));
    if |arrOfDoc| >= 1 {
      var isEmptyDoc := AllEmptyScan(arrOfDoc);
      if isEmptyDoc {
        return NoDocs, updates;
      }
      updates := updates + [PushDocs(userRef, arrOfDoc, date)];
      var err := docsUpdateFails;
      updates := updates + [StampDevice(deviceId, date)];
      var deviceUpdateErr := deviceUpdateFails;
      if deviceUpdateErr {
        return DeviceUpdateError, updates;
      }
      if err {
        return DocsUpdateError, updates;
      }
      response := Saved(newDocCount, date);
    } else if duplicateDocFound {
      response := Duplicates;
    } else {
      response := Required;
    }
  }
}
