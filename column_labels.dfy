/** The spreadsheet column-label generator of main.go: `handleEndCase` and
    `GetColList` walk the series A, B, ..., Z, AA, AB, ... (bijective
    base-26) from a starting label and cut it into rows. */
module ColumnLabels {
  import opened Seqs

  /** Characters whose successor Go writes back as a single byte. */
  predicate Ascii(s: string)
  {
    forall i :: 0 <= i < |s| ==> s[i] < '\U{7F}'
  }

  /** Every character is an upper-case Latin letter (the empty string too). */
  predicate Letters(s: string)
  {
    forall i :: 0 <= i < |s| ==> 'A' <= s[i] <= 'Z'
  }

  predicate IsLabel(s: string)
  {
    |s| > 0 && Letters(s)
  }

  /** `string(rune(c) + 1)` for a one-byte character. */
  function NextChar(c: char): (d: char)
    requires c < '\U{7F}'
    ensures d as int == c as int + 1
  {
    (c as int + 1) as char
  }

  function Repeat(c: char, n: nat): (r: string)
    ensures |r| == n && forall i :: 0 <= i < n ==> r[i] == c
  {
    if n == 0 then [] else Repeat(c, n - 1) + [c]
  }

  /** The successor of a label: the last letter that is not 'Z' goes up by
      one and the 'Z's after it wrap round to 'A'; with no such letter the
      label grows by one 'A'. */
  function Succ(s: string): (r: string)
    requires Ascii(s)
    ensures Letters(s) ==> IsLabel(r)
    ensures |r| == |s| || (|r| == |s| + 1 && forall i :: 0 <= i < |s| ==> s[i] == 'Z')
  {
    if s == [] then "A"
    else if s[|s| - 1] != 'Z' then s[..|s| - 1] + [NextChar(s[|s| - 1])]
    else Succ(s[..|s| - 1]) + "A"
  }

  /** A string made only of 'Z's is followed by one more 'A' than it has
      letters: "ZZ" is followed by "AAA". */
  lemma {:induction false} SuccAllZ(n: nat)
    ensures Succ(Repeat('Z', n)) == Repeat('A', n + 1)
  {
    if n > 0 {
      assert Repeat('Z', n)[..n - 1] == Repeat('Z', n - 1);
      SuccAllZ(n - 1);
    }
  }

  /** With k the position of the rightmost letter that is not 'Z', that
      letter goes up by one, the 'Z's after it become 'A's and the length is
      kept: "AZ" is followed by "BA". */
  lemma {:induction false} SuccRightmost(s: string, k: nat)
    requires Ascii(s) && k < |s| && s[k] != 'Z'
    requires forall j :: k < j < |s| ==> s[j] == 'Z'
    ensures Succ(s) == s[..k] + [NextChar(s[k])] + Repeat('A', |s| - 1 - k)
  {
    if k < |s| - 1 {
      var p := s[..|s| - 1];
      assert p[..k] == s[..k];
      SuccRightmost(p, k);
      assert Repeat('A', |s| - 1 - k) == Repeat('A', |p| - 1 - k) + "A";
    }
  }

  /** The number a label stands for in bijective base 26 ("A" = 1, "Z" = 26,
      "AA" = 27). */
  function Value(s: string): nat
    requires Letters(s)
  {
    if s == [] then 0
    else Value(s[..|s| - 1]) * 26 + (s[|s| - 1] as int - 'A' as int + 1)
  }

  /** Succ is the bijective base-26 successor. */
  lemma {:induction false} SuccValue(s: string)
    requires Letters(s)
    ensures Value(Succ(s)) == Value(s) + 1
  {
    if s != [] && s[|s| - 1] == 'Z' {
      var p := s[..|s| - 1];
      SuccValue(p);
      assert (Succ(p) + "A")[..|Succ(p) + "A"| - 1] == Succ(p);
    } else if s != [] {
      var r := Succ(s);
      assert r[..|r| - 1] == s[..|s| - 1];
    }
  }

  /** Shorter labels come first; equally long ones in string order. */
  predicate ShortLexLess(a: string, b: string)
  {
    |a| < |b| || (|a| == |b| && LexLess(a, b))
  }

  lemma ShortLexTransitive(a: string, b: string, c: string)
    requires ShortLexLess(a, b) && ShortLexLess(b, c)
    ensures ShortLexLess(a, c)
  {
    if |a| == |b| == |c| {
      LexLessTransitive(a, b, c);
    }
  }

  lemma {:induction false} SuccIncreases(s: string)
    requires Letters(s)
    ensures ShortLexLess(s, Succ(s))
  {
    if s != [] {
      var p := s[..|s| - 1];
      if s[|s| - 1] != 'Z' {
        LexLessAt(s, Succ(s), |s| - 1);
      } else {
        SuccIncreases(p);
        assert s == p + "Z";
        if |Succ(p)| == |p| {
          LexLessAppend(p, Succ(p), "Z", "A");
        }
      }
    }
  }

  /** The k-th label after `s`. */
  function SuccN(s: string, k: nat): (r: string)
    requires IsLabel(s)
    ensures IsLabel(r)
  {
    if k == 0 then s else Succ(SuccN(s, k - 1))
  }

  /** The n labels starting with the `from`-th after `s`. */
  function Labels(s: string, from: nat, n: nat): (r: seq<string>)
    requires IsLabel(s)
    ensures |r| == n
  {
    seq(n, k requires 0 <= k < n => SuccN(s, from + k))
  }

  /** The k-th label after `s` stands for k more than `s`. */
  lemma {:induction false} SuccNValue(s: string, k: nat)
    requires IsLabel(s)
    ensures Value(SuccN(s, k)) == Value(s) + k
  {
    if k > 0 {
      var t := SuccN(s, k - 1);
      SuccNValue(s, k - 1);
      SuccValue(t);
      assert SuccN(s, k) == Succ(t);
    }
  }

  /** Later labels are strictly greater, so no label repeats. */
  lemma {:induction false} SuccNOrdered(s: string, i: nat, j: nat)
    requires IsLabel(s) && i < j
    ensures ShortLexLess(SuccN(s, i), SuccN(s, j))
    ensures SuccN(s, i) != SuccN(s, j)
  {
    SuccIncreases(SuccN(s, j - 1));
    if i < j - 1 {
      SuccNOrdered(s, i, j - 1);
      ShortLexTransitive(SuccN(s, i), SuccN(s, j - 1), SuccN(s, j));
    }
    LexLessIrreflexive(SuccN(s, i));
  }

  /** handleEndCase: scans from the right past the trailing 'Z's, bumps the
      first other letter and appends one 'A' per 'Z' skipped, plus one more
      when every letter was a 'Z'. */
  method HandleEndCase(cs: string) returns (pre: string)
    requires Ascii(cs)
    ensures pre == Succ(cs)
  {
    pre := "";
    var zCount := 0;
    var i := |cs| - 1;
    ghost var k := -1;
    while i >= 0
      invariant -1 <= i < |cs|
      invariant zCount == |cs| - 1 - i
      invariant forall j :: i < j < |cs| ==> cs[j] == 'Z'
      invariant pre == "" && k == -1
      decreases i + 1
    {
      if cs[i] == 'Z' {
        zCount := zCount + 1;
        i := i - 1;
        continue;
      }
      pre := cs[..i] + [NextChar(cs[i])];
      k := i;
      i := i - 1;
      assert 0 <= k < |cs| && zCount == |cs| - 1 - k && cs[k] != 'Z';
      break;
    }
    ghost var pre0 := pre;
    var j := 0;
    while j < zCount
      invariant 0 <= j <= zCount
      invariant pre == pre0 + Repeat('A', j)
    {
      pre := pre + "A";
      j := j + 1;
    }
    if zCount == |cs| {
      pre := pre + "A";
    }
    if k == -1 {
      assert zCount == |cs| && pre == Repeat('A', |cs| + 1);
      assert cs == Repeat('Z', |cs|);
      SuccAllZ(|cs|);
    } else {
      assert 0 <= k < |cs| && zCount == |cs| - 1 - k;
      assert pre == cs[..k] + [NextChar(cs[k])] + Repeat('A', |cs| - 1 - k);
      SuccRightmost(cs, k);
    }
  }

  lemma LettersAscii(s: string)
    requires Letters(s)
    ensures Ascii(s)
  {
  }

  lemma {:induction false} MulStep(r: int, c: int, n: int)
    requires 0 <= r < n && c >= 1
    ensures r * c + c <= n * c
    decreases n - r
  {
    if r + 1 < n {
      MulStep(r + 1, c, n);
      assert (r + 1) * c == r * c + c;
    } else {
      assert n * c == r * c + c;
    }
  }

  lemma MulSucc(a: int, c: int)
    ensures (a + 1) * c == a * c + c
  {
  }

  /** The numCols labels from position `start` on, joined by single spaces
      ("" when they run past the end). */
  function ChunkAt(colList: seq<string>, start: nat, numCols: nat): string
  {
    if start + numCols <= |colList| then Join(colList[start..start + numCols], " ") else ""
  }

  /** The row-building loop of GetColList: consecutive groups of numCols
      labels, each joined by single spaces. */
  method ChunkRows(colList: seq<string>, numRows: int, numCols: int) returns (finalRes: seq<string>)
    requires numRows >= 1 && numCols >= 1 && |colList| == numRows * numCols
    ensures |finalRes| == numRows
    ensures forall r :: 0 <= r < numRows ==> finalRes[r] == ChunkAt(colList, r * numCols, numCols)
  {
    finalRes := [];
    var i := 0;
    ghost var rows := 0;
    while i < |colList|
      invariant 0 <= rows <= numRows && i == rows * numCols && |finalRes| == rows
      invariant forall r :: 0 <= r < rows ==> finalRes[r] == ChunkAt(colList, r * numCols, numCols)
      decreases |colList| - i
    {
      MulStep(rows, numCols, numRows);
      assert Join(colList[i..i + numCols], " ") == ChunkAt(colList, rows * numCols, numCols);
      finalRes := finalRes + [Join(colList[i..i + numCols], " ")];
      i := i + numCols - 1;
      i := i + 1;
      MulSucc(rows, numCols);
      rows := rows + 1;
    }
    if rows < numRows {
      MulStep(rows, numCols, numRows);
    }
  }

  lemma LabelsSlice(list: seq<string>, s: string, from: nat, n: nat)
    requires IsLabel(s) && from + n <= |list|
    requires forall k :: 0 <= k < |list| ==> list[k] == SuccN(s, k)
    ensures list[from..from + n] == Labels(s, from, n)
  {
    var slice, labels := list[from..from + n], Labels(s, from, n);
    assert |slice| == n == |labels|;
    forall i | 0 <= i < n
      ensures slice[i] == labels[i]
    {
      assert slice[i] == list[from + i];
    }
  }

  lemma RowsAreLabels(colList: seq<string>, finalRes: seq<string>, s: string, numRows: int, numCols: int)
    requires IsLabel(s) && numRows >= 1 && numCols >= 1 && |colList| == numRows * numCols
    requires forall k :: 0 <= k < |colList| ==> colList[k] == SuccN(s, k)
    requires |finalRes| == numRows
    requires forall r :: 0 <= r < numRows ==> finalRes[r] == ChunkAt(colList, r * numCols, numCols)
    ensures forall r :: 0 <= r < numRows ==> finalRes[r] == RowText(s, r, numCols)
  {
    forall r | 0 <= r < numRows
      ensures finalRes[r] == RowText(s, r, numCols)
    {
      MulStep(r, numCols, numRows);
      ChunkIsLabels(colList, s, r * numCols, numCols);
    }
  }

  /** A chunk of the series is the run of labels at the same position. */
  lemma ChunkIsLabels(colList: seq<string>, s: string, st: nat, numCols: nat)
    requires IsLabel(s) && st + numCols <= |colList|
    requires forall k :: 0 <= k < |colList| ==> colList[k] == SuccN(s, k)
    ensures ChunkAt(colList, st, numCols) == Join(Labels(s, st, numCols), " ")
  {
    LabelsSlice(colList, s, st, numCols);
  }

  /** Row r of the result: the numCols labels from the (r * numCols)-th on,
      joined by single spaces. */
  function RowText(s: string, r: nat, numCols: nat): string
    requires IsLabel(s)
  {
    Join(Labels(s, r * numCols, numCols), " ")
  }

  lemma ExtendSeries(list: seq<string>, s: string, next: string)
    requires IsLabel(s)
    requires forall k :: 0 <= k < |list| ==> list[k] == SuccN(s, k)
    requires next == SuccN(s, |list|)
    ensures forall k :: 0 <= k < |list| + 1 ==> (list + [next])[k] == SuccN(s, k)
  {
    forall k | 0 <= k < |list| + 1
      ensures (list + [next])[k] == SuccN(s, k)
    {
      if k < |list| {
        assert (list + [next])[k] == list[k];
      }
    }
  }

  /** The label-generating loop of GetColList: starting from columnToStart,
      each new label is the successor of the previous one, until there are
      `total` of them. */
  method BuildColList(columnToStart: string, total: int) returns (colList: seq<string>)
    requires IsLabel(columnToStart) && total >= 1
    ensures |colList| == total
    ensures forall k :: 0 <= k < total ==> colList[k] == SuccN(columnToStart, k)
  {
    colList := [columnToStart];
    var pivot := 0;
    if |columnToStart| > 0 {
      pivot := |columnToStart| - 1;
    }
    while |colList| != total
      invariant 1 <= |colList| <= total
      invariant forall k :: 0 <= k < |colList| ==> colList[k] == SuccN(columnToStart, k)
      invariant pivot == |colList[|colList| - 1]| - 1
      decreases total - |colList|
    {
      var currentStr := colList[|colList| - 1];
      SeriesNext(colList, columnToStart);
      if currentStr[pivot] == 'Z' {
        currentStr := HandleEndCase(currentStr);
        ExtendSeries(colList, columnToStart, currentStr);
        colList := colList + [currentStr];
        pivot := |currentStr| - 1;
        continue;
      }
      BumpIsSucc(currentStr);
      ExtendSeries(colList, columnToStart, currentStr[..pivot] + [NextChar(currentStr[pivot])]);
      colList := colList + [currentStr[..pivot] + [NextChar(currentStr[pivot])]];
      currentStr := currentStr[..pivot] + [NextChar(currentStr[pivot])];
    }
  }

  /** The last label of a series prefix is ASCII and its successor is the
      next label of the series. */
  lemma SeriesNext(list: seq<string>, s: string)
    requires IsLabel(s) && |list| >= 1
    requires forall k :: 0 <= k < |list| ==> list[k] == SuccN(s, k)
    ensures Ascii(list[|list| - 1]) && |list[|list| - 1]| >= 1
    ensures Succ(list[|list| - 1]) == SuccN(s, |list|)
  {
    assert list[|list| - 1] == SuccN(s, |list| - 1);
    LettersAscii(list[|list| - 1]);
  }

  /** A label not ending in 'Z' is followed by the label with its last
      letter bumped. */
  lemma BumpIsSucc(s: string)
    requires Ascii(s) && |s| >= 1 && s[|s| - 1] != 'Z'
    ensures s[..|s| - 1] + [NextChar(s[|s| - 1])] == Succ(s)
  {
  }

  /** GetColList: `numRows * numCols` labels from `columnToStart` on, cut
      into `numRows` rows of `numCols` labels joined by single spaces. */
  method GetColList(columnToStart: string, numRows: int, numCols: int) returns (finalRes: seq<string>)
    requires IsLabel(columnToStart)
    requires numRows >= 1 && numCols >= 1
    ensures |finalRes| == numRows
    ensures forall r :: 0 <= r < numRows ==> finalRes[r] == RowText(columnToStart, r, numCols)
  {
    MulStep(0, numCols, numRows);
    var colList := BuildColList(columnToStart, numCols * numRows);
    finalRes := ChunkRows(colList, numRows, numCols);
    RowsAreLabels(colList, finalRes, columnToStart, numRows, numCols);
  }
}
