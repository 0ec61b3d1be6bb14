/** wordCount of main.go: strings.Fields splits the text at runs of Unicode
    white space, and a map counts how often each field occurs. */
module WordCount {
  import opened Seqs

  /** unicode.IsSpace. */
  predicate IsSpace(c: char)
  {
    c == '\t' || c == '\n' || c == '\U{0B}' || c == '\U{0C}' || c == '\r' || c == ' '
    || c == '\U{85}' || c == '\U{A0}' || c == '\U{1680}'
    || ('\U{2000}' <= c <= '\U{200A}')
    || c == '\U{2028}' || c == '\U{2029}' || c == '\U{202F}' || c == '\U{205F}' || c == '\U{3000}'
  }

  predicate NoSpace(s: string)
  {
    forall i :: 0 <= i < |s| ==> !IsSpace(s[i])
  }

  /** The longest prefix without white space. */
  function Word(s: string): (w: string)
    ensures |w| <= |s| && w == s[..|w|] && NoSpace(w)
    ensures |w| < |s| ==> IsSpace(s[|w|])
  {
    if s == [] || IsSpace(s[0]) then [] else [s[0]] + Word(s[1..])
  }

  /** strings.Fields: the maximal runs of non-space characters, in order. */
  function Fields(s: string): (r: seq<string>)
    ensures forall i :: 0 <= i < |r| ==> |r[i]| > 0 && NoSpace(r[i])
    decreases |s|
  {
    if s == [] then []
    else if IsSpace(s[0]) then Fields(s[1..])
    else [Word(s)] + Fields(s[|Word(s)|..])
  }

  /** The text with its white space deleted. */
  function RemoveSpaces(s: string): string
  {
    if s == [] then [] else (if IsSpace(s[0]) then [] else [s[0]]) + RemoveSpaces(s[1..])
  }

  function Concat(ws: seq<string>): string
  {
    if ws == [] then [] else ws[0] + Concat(ws[1..])
  }

  lemma {:induction false} RemoveSpacesAppend(w: string, t: string)
    requires NoSpace(w)
    ensures RemoveSpaces(w + t) == w + RemoveSpaces(t)
  {
    if w != [] {
      assert (w + t)[1..] == w[1..] + t;
      RemoveSpacesAppend(w[1..], t);
    } else {
      assert w + t == t;
    }
  }

  /** No character is lost or invented: the fields, put back together, are
      the text without its white space. */
  lemma {:induction false} FieldsConcat(s: string)
    ensures Concat(Fields(s)) == RemoveSpaces(s)
    decreases |s|
  {
    if s != [] {
      if IsSpace(s[0]) {
        FieldsConcat(s[1..]);
      } else {
        var w := Word(s);
        var t := s[|w|..];
        FieldsConcat(t);
        assert s == w + t;
        RemoveSpacesAppend(w, t);
        assert Concat(Fields(s)) == w + Concat(Fields(t));
      }
    }
  }

  lemma {:induction false} WordOf(w: string, t: string)
    requires NoSpace(w)
    requires t == [] || IsSpace(t[0])
    ensures Word(w + t) == w
  {
    if w != [] {
      assert (w + t)[1..] == w[1..] + t;
      WordOf(w[1..], t);
    } else {
      assert w + t == t;
    }
  }

  /** Words without white space survive joining by single spaces and
      splitting again. */
  lemma {:induction false} FieldsJoin(ws: seq<string>)
    requires forall i :: 0 <= i < |ws| ==> |ws[i]| > 0 && NoSpace(ws[i])
    ensures Fields(Join(ws, " ")) == ws
  {
    if |ws| == 1 {
      WordOf(ws[0], []);
      assert ws[0] + [] == ws[0];
      assert Fields(ws[0][|ws[0]|..]) == [];
    } else if |ws| > 1 {
      var w, rest := ws[0], Join(ws[1..], " ");
      var s := w + " " + rest;
      WordOf(w, " " + rest);
      assert s == w + (" " + rest);
      assert s[|w|..] == " " + rest;
      assert (" " + rest)[1..] == rest;
      FieldsJoin(ws[1..]);
      assert ws == [w] + ws[1..];
    }
  }

  /** Sum over the keys `ks` of their number of occurrences in `s`. */
  function SumCounts(ks: seq<string>, s: seq<string>): nat
  {
    if ks == [] then 0 else SumCounts(ks[..|ks| - 1], s) + Count(ks[|ks| - 1], s)
  }

  lemma {:induction false} SumCountsSnoc(ks: seq<string>, p: seq<string>, x: string)
    requires Distinct(ks)
    ensures SumCounts(ks, p + [x]) == SumCounts(ks, p) + (if x in ks then 1 else 0)
  {
    if ks != [] {
      var init, k := ks[..|ks| - 1], ks[|ks| - 1];
      assert ks == init + [k];
      SumCountsSnoc(init, p, x);
      assert (p + [x])[..|p + [x]| - 1] == p;
      assert x in ks <==> x in init || x == k;
    }
  }

  /** The counts of the distinct fields add up to the number of fields. */
  lemma {:induction false} CountsTotal(s: seq<string>)
    ensures SumCounts(Dedupe(s), s) == |s|
  {
    if s != [] {
      var p, x := s[..|s| - 1], s[|s| - 1];
      assert s == p + [x];
      CountsTotal(p);
      DedupeSet(p);
      DedupeDistinct(p);
      var d := Dedupe(p);
      SumCountsSnoc(d, p, x);
      if x !in p {
        assert Dedupe(s) == d + [x];
        assert (d + [x])[..|d + [x]| - 1] == d;
        assert p == s[..|s| - 1];
        CountAbsent(x, p);
      }
    }
  }

  /** One more word adds one to its own count and to no other. */
  lemma CountSnoc(p: seq<string>, x: string)
    ensures forall w :: Count(w, p + [x]) == Count(w, p) + (if w == x then 1 else 0)
  {
    assert (p + [x])[..|p|] == p;
  }

  /** wordCount: every field is a key, its value is its number of
      occurrences, and (enumerating each key once, by first appearance) the
      values add up to the number of fields. */
  method WordCount(str: string) returns (counts: map<string, int>)
    ensures forall w :: w in counts <==> w in Fields(str)
    ensures forall w :: w in counts ==> counts[w] == Count(w, Fields(str))
    ensures forall w :: w in counts <==> w in Dedupe(Fields(str))
    ensures Distinct(Dedupe(Fields(str)))
    ensures SumCounts(Dedupe(Fields(str)), Fields(str)) == |Fields(str)|
  {
    var wordList := Fields(str);
    counts := map[];
    var i := 0;
    while i < |wordList|
      invariant 0 <= i <= |wordList|
      invariant forall w :: w in counts <==> w in wordList[..i]
      invariant forall w :: w in counts ==> counts[w] == Count(w, wordList[..i])
    {
      var word := wordList[i];
      ghost var prefix := wordList[..i];
      assert wordList[..i + 1] == prefix + [word];
      CountSnoc(prefix, word);
      if word in counts {
        counts := counts[word := counts[word] + 1];
      } else {
        CountAbsent(word, prefix);
        counts := counts[word := 1];
      }
      i := i + 1;
    }
    assert wordList[..i] == wordList;
    DedupeSet(wordList);
    DedupeDistinct(wordList);
    CountsTotal(wordList);
  }
}
