/** INSERT_POSGTRESS.GO: the column and value lists filled from one pass
    over the data map, and the INSERT statement with one positional
    placeholder ($1, $2, ...) per value. Go's map iteration order is the
    parameter `order`, which lists every key once. */
module InsertQuery {
  import opened Seqs

  /** The i-th (0-based) placeholder, "$" followed by i + 1. */
  function Token(i: nat): string
  {
    "$" + Decimal(i + 1)
  }

  function Tokens(n: nat): (r: seq<string>)
    ensures |r| == n && forall i :: 0 <= i < n ==> r[i] == Token(i)
  {
    seq(n, i requires 0 <= i < n => Token(i))
  }

  /** createPlaceholders: fills an array of `count` tokens and joins them. */
  method CreatePlaceholders(count: nat) returns (r: string)
    ensures r == Join(Tokens(count), ", ")
    ensures count == 0 ==> r == ""
  {
    var placeholders := new string[count];
    for i := 0 to count
      invariant forall j :: 0 <= j < i ==> placeholders[j] == Token(j)
    {
      placeholders[i] := "$" + Decimal(i + 1);
    }
    assert placeholders[..] == Tokens(count);
    r := Join(placeholders[..], ", ");
  }

  lemma TokenDollars(i: nat)
    ensures Count('$', Token(i)) == 1
  {
    CountConcat('$', "$", Decimal(i + 1));
    CountNonDigit('$', i + 1);
  }

  lemma {:induction false} CountAllOnes(parts: seq<string>)
    requires forall i :: 0 <= i < |parts| ==> Count('$', parts[i]) == 1
    ensures CountAll('$', parts) == |parts|
  {
    if parts != [] {
      CountAllOnes(parts[1..]);
    }
  }

  /** The placeholder list holds exactly `n` '$' signs, one per token. */
  lemma PlaceholderCount(n: nat)
    ensures Count('$', Join(Tokens(n), ", ")) == n
  {
    forall i | 0 <= i < n
      ensures Count('$', Tokens(n)[i]) == 1
    {
      TokenDollars(i);
    }
    CountAllOnes(Tokens(n));
    CountJoin('$', Tokens(n), ", ");
  }

  /** Different positions get different tokens. */
  lemma TokensDistinct(i: nat, j: nat)
    requires Token(i) == Token(j)
    ensures i == j
  {
    assert Token(i)[1..] == Decimal(i + 1);
    assert Token(j)[1..] == Decimal(j + 1);
    DecimalInjective(i + 1, j + 1);
  }

  lemma {:induction false} DistinctCard<T>(s: seq<T>)
    requires Distinct(s)
    ensures |set x | x in s| == |s|
  {
    if s != [] {
      var p := s[..|s| - 1];
      DistinctCard(p);
      assert (set x | x in s) == (set x | x in p) + {s[|s| - 1]};
    }
  }

  function InsertStatement(columns: seq<string>, placeholders: string): string
  {
    "INSERT INTO your_table (" + Join(columns, ", ") + ") VALUES (" + placeholders + ");"
  }

  /** The query assembly in main: one loop fills `columns` and `values`
      together, so column j pairs with value j and there is one placeholder
      per column. */
  method BuildInsert<V>(data: map<string, V>, order: seq<string>)
    returns (query: string, columns: seq<string>, values: seq<V>)
    requires Distinct(order) && forall k :: k in data <==> k in order
    ensures |columns| == |values| == |order| == |data|
    ensures forall j :: 0 <= j < |columns| ==> columns[j] == order[j] && values[j] == data[order[j]]
    ensures query == InsertStatement(columns, Join(Tokens(|values|), ", "))
  {
    columns := [];
    values := [];
    var j := 0;
    while j < |order|
      invariant 0 <= j <= |order| && |columns| == |values| == j
      invariant forall i :: 0 <= i < j ==> columns[i] == order[i] && values[i] == data[order[i]]
    {
      var col := order[j];
      columns := columns + [col];
      values := values + [data[col]];
      j := j + 1;
    }
    DistinctCard(order);
    assert data.Keys == set x | x in order;
    var placeholders := CreatePlaceholders(|values|);
    query := InsertStatement(columns, placeholders);
  }

  /** When no column name contains '$', the statement has exactly one '$'
      per column. */
  lemma QueryPlaceholders(columns: seq<string>)
    requires forall j :: 0 <= j < |columns| ==> '$' !in columns[j]
    ensures Count('$', InsertStatement(columns, Join(Tokens(|columns|), ", "))) == |columns|
  {
    var cs := Join(columns, ", ");
    var ps := Join(Tokens(|columns|), ", ");
    forall j | 0 <= j < |columns|
      ensures Count('$', columns[j]) == 0
    {
      CountAbsent('$', columns[j]);
    }
    CountNone(columns);
    CountJoin('$', columns, ", ");
    CountAbsent('$', ", ");
    PlaceholderCount(|columns|);
    var a, b, c, d := "INSERT INTO your_table (", cs, ") VALUES (", ps;
    CountAbsent('$', a);
    CountAbsent('$', c);
    CountAbsent('$', ");");
    CountConcat('$', a, b);
    CountConcat('$', a + b, c);
    CountConcat('$', a + b + c, d);
    CountConcat('$', a + b + c + d, ");");
  }

  lemma {:induction false} CountNone(parts: seq<string>)
    requires forall i :: 0 <= i < |parts| ==> Count('$', parts[i]) == 0
    ensures CountAll('$', parts) == 0
  {
    if parts != [] {
      CountNone(parts[1..]);
    }
  }
}
