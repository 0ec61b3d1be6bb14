/** The customer-id sweep in main of yashwant.go: the ids read from the
    authProfile cursor are collected in order, then each id read from the
    authDB cursor removes its first remaining occurrence. The two cursors'
    documents are given as the sequences of ids they yield. */
module CustomerIds {

  /** The sequence without its first occurrence of `x` (unchanged when there
      is none). */
  function RemoveFirst<T(==)>(s: seq<T>, x: T): seq<T>
  {
    if s == [] then []
    else if s[0] == x then s[1..]
    else [s[0]] + RemoveFirst(s[1..], x)
  }

  lemma {:induction false} RemoveFirstAbsent<T>(s: seq<T>, x: T)
    requires x !in s
    ensures RemoveFirst(s, x) == s
  {
    if s != [] {
      RemoveFirstAbsent(s[1..], x);
    }
  }

  /** With i the first position of `x`, exactly that element is cut out and
      the rest keep their order. */
  lemma {:induction false} RemoveFirstAt<T>(s: seq<T>, x: T, i: nat)
    requires i < |s| && s[i] == x && x !in s[..i]
    ensures RemoveFirst(s, x) == s[..i] + s[i + 1..]
  {
    if i > 0 {
      assert s[0] == s[..i][0];
      assert s[1..][..i - 1] == s[1..i];
      RemoveFirstAt(s[1..], x, i - 1);
      assert s[..i] == [s[0]] + s[1..i];
    }
  }

  /** One occurrence of `x` leaves; a present id shortens the list by one. */
  lemma {:induction false} RemoveFirstMultiset<T>(s: seq<T>, x: T)
    ensures multiset(RemoveFirst(s, x)) == multiset(s) - multiset{x}
    ensures x in s ==> |RemoveFirst(s, x)| == |s| - 1
    ensures x !in s ==> RemoveFirst(s, x) == s
  {
    if x !in s {
      RemoveFirstAbsent(s, x);
    } else {
      var h, t := s[0], s[1..];
      assert s == [h] + t;
      assert multiset(s) == multiset{h} + multiset(t);
      if h == x {
        assert RemoveFirst(s, x) == t;
        assert multiset(s) - multiset{x} == multiset(t);
      } else {
        RemoveFirstMultiset(t, x);
        assert RemoveFirst(s, x) == [h] + RemoveFirst(t, x);
        assert multiset(RemoveFirst(s, x)) == multiset{h} + multiset(RemoveFirst(t, x));
        SubtractPastOther(multiset{h}, multiset(t), x);
      }
    }
  }

  lemma SubtractPastOther<T>(a: multiset<T>, b: multiset<T>, x: T)
    requires x !in a
    ensures (a + b) - multiset{x} == a + (b - multiset{x})
  {
    forall y
      ensures ((a + b) - multiset{x})[y] == (a + (b - multiset{x}))[y]
    {
    }
  }

  /** The list after removing, in order, the first occurrence of each of `ids`. */
  function RemoveEach<T(==)>(s: seq<T>, ids: seq<T>): seq<T>
  {
    if ids == [] then s else RemoveFirst(RemoveEach(s, ids[..|ids| - 1]), ids[|ids| - 1])
  }

  /** What survives is what was collected minus what was found in authDB,
      counted with multiplicity. */
  lemma {:induction false} RemoveEachMultiset<T>(s: seq<T>, ids: seq<T>)
    ensures multiset(RemoveEach(s, ids)) == multiset(s) - multiset(ids)
  {
    if ids != [] {
      var p, x := ids[..|ids| - 1], ids[|ids| - 1];
      RemoveEachMultiset(s, p);
      RemoveFirstMultiset(RemoveEach(s, p), x);
      assert ids == p + [x];
      assert multiset(ids) == multiset(p) + multiset{x};
      SubtractTwice(multiset(s), multiset(p), multiset{x});
    }
  }

  lemma SubtractTwice<T>(a: multiset<T>, b: multiset<T>, c: multiset<T>)
    ensures (a - b) - c == a - (b + c)
  {
    forall y
      ensures ((a - b) - c)[y] == (a - (b + c))[y]
    {
    }
  }

  /** The whole sweep: collect, then splice out the first match of each
      authDB id. */
  method SweepCustomerIds(profileIds: seq<string>, authIds: seq<string>) returns (customerIDs: seq<string>)
    ensures customerIDs == RemoveEach(profileIds, authIds)
    ensures multiset(customerIDs) == multiset(profileIds) - multiset(authIds)
  {
    customerIDs := [];
    var k := 0;
    while k < |profileIds|
      invariant 0 <= k <= |profileIds| && customerIDs == profileIds[..k]
    {
      customerIDs := customerIDs + [profileIds[k]];
      k := k + 1;
    }
    assert profileIds[..k] == profileIds;

    k := 0;
    while k < |authIds|
      invariant 0 <= k <= |authIds|
      invariant customerIDs == RemoveEach(profileIds, authIds[..k])
    {
      var customerID := authIds[k];
      ghost var before := customerIDs;
      var i := 0;
      while i < |customerIDs|
        invariant 0 <= i <= |customerIDs| && customerIDs == before
        invariant customerID !in customerIDs[..i]
      {
        if customerIDs[i] == customerID {
          RemoveFirstAt(customerIDs, customerID, i);
          customerIDs := customerIDs[..i] + customerIDs[i + 1..];
          break;
        }
        assert customerIDs[..i + 1] == customerIDs[..i] + [customerIDs[i]];
        i := i + 1;
      }
      if customerIDs == before {
        assert customerIDs[..i] == customerIDs;
        RemoveFirstAbsent(before, customerID);
      }
      assert authIds[..k + 1][..k] == authIds[..k];
      k := k + 1;
    }
    assert authIds[..k] == authIds;
    RemoveEachMultiset(profileIds, authIds);
  }
}
