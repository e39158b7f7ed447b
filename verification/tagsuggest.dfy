/**
 The backend's `suggest_tags`: a keyword-frequency ranking of a text. The
 text is lowercased, stripped of characters that are neither word
 characters nor whitespace, split on whitespace, and filtered of stop words
 and words shorter than three; the seven most frequent keywords are
 returned, ties in order of first occurrence (`Counter.most_common` sorts
 stably by count over first-seen order).
 */
module TagSuggest {
  import opened Text
  import Config

  const MinWordLength := 3
  const TopN := 7

  /** `re.sub(r"[^\w\s]", "", text)`. */
  function StripPunctuation(s: string): (t: string)
    ensures forall i :: 0 <= i < |t| ==> IsWordChar(t[i]) || IsSpace(t[i])
    ensures forall c :: c in t ==> c in s
    ensures (forall i :: 0 <= i < |s| ==> IsWordChar(s[i]) || IsSpace(s[i])) ==> t == s
    decreases |s|
  {
    if s == [] then []
    else
      var rest := StripPunctuation(s[1..]);
      assert forall c :: c in s[1..] ==> c in s;
      if IsWordChar(s[0]) || IsSpace(s[0]) then [s[0]] + rest else rest
  }

  /** The characters are filtered one at a time, so the kept ones stay in their order. */
  lemma {:induction false} StripPunctuationAppend(a: string, b: string)
    ensures StripPunctuation(a + b) == StripPunctuation(a) + StripPunctuation(b)
    decreases |a|
  {
    if a == [] {
      assert a + b == b;
    } else {
      assert (a + b)[1..] == a[1..] + b;
      StripPunctuationAppend(a[1..], b);
    }
  }

  /** A word or whitespace character is kept as often as it occurs; any other is dropped. */
  lemma {:induction false} StripPunctuationCounts(s: string, c: char)
    ensures multiset(StripPunctuation(s))[c] == if IsWordChar(c) || IsSpace(c) then multiset(s)[c] else 0
    decreases |s|
  {
    if s != [] {
      StripPunctuationCounts(s[1..], c);
      assert s == [s[0]] + s[1..];
    }
  }

  /** A word that survives the filter: not a stop word and at least three characters long. */
  predicate IsKeyword(w: string) {
    w !in Config.StopWords && |w| >= MinWordLength
  }

  /** The list comprehension over `words`, order and repetitions kept. */
  function Keywords(words: seq<string>): (ks: seq<string>)
    ensures forall i :: 0 <= i < |ks| ==> IsKeyword(ks[i]) && ks[i] in words
    ensures forall w :: w in words && IsKeyword(w) ==> w in ks
    decreases |words|
  {
    if words == [] then []
    else
      var rest := Keywords(words[1..]);
      if IsKeyword(words[0]) then [words[0]] + rest else rest
  }

  /** The words are filtered one at a time, so the keywords stay in the order `Counter` sees them. */
  lemma {:induction false} KeywordsAppend(a: seq<string>, b: seq<string>)
    ensures Keywords(a + b) == Keywords(a) + Keywords(b)
    decreases |a|
  {
    if a == [] {
      assert a + b == b;
    } else {
      var ab := a + b;
      assert ab[0] == a[0] && ab[1..] == a[1..] + b;
      KeywordsAppend(a[1..], b);
      var head: seq<string> := if IsKeyword(a[0]) then [a[0]] else [];
      assert Keywords(ab) == head + Keywords(a[1..] + b);
      assert Keywords(a) == head + Keywords(a[1..]);
    }
  }

  /** A keyword is kept as often as it occurs, which is what `Counter` counts; any other word
      is dropped. */
  lemma {:induction false} KeywordsCounts(words: seq<string>, w: string)
    ensures multiset(Keywords(words))[w] == if IsKeyword(w) then multiset(words)[w] else 0
    decreases |words|
  {
    if words != [] {
      KeywordsCounts(words[1..], w);
      assert words == [words[0]] + words[1..];
    }
  }

  /** The keywords of a text, in the order `Counter` sees them. */
  function TextKeywords(text: string): seq<string> {
    Keywords(Words(StripPunctuation(Lower(text))))
  }

  // ---------------------------------------------------------------------------
  // Counting and ranking.
  // ---------------------------------------------------------------------------

  function Count(ws: seq<string>, w: string): nat {
    multiset(ws)[w]
  }

  /** The position of the first occurrence of `w`, or `|ws|` when absent. */
  function FirstIndex(ws: seq<string>, w: string): (i: nat)
    ensures w in ws ==> i < |ws| && ws[i] == w && w !in ws[..i]
    ensures w !in ws ==> i == |ws|
    decreases |ws|
  {
    if ws == [] then 0
    else if ws[0] == w then 0
    else
      var j := FirstIndex(ws[1..], w);
      if w in ws then
        assert ws[..j + 1] == [ws[0]] + ws[1..][..j];
        j + 1
      else j + 1
  }

  /** `a` ranks before `b`: more occurrences, or as many and seen first. */
  predicate Before(ws: seq<string>, a: string, b: string) {
    || Count(ws, a) > Count(ws, b)
    || (Count(ws, a) == Count(ws, b) && FirstIndex(ws, a) < FirstIndex(ws, b))
  }

  /** Two different keywords are always ranked one way or the other. */
  lemma BeforeTotal(ws: seq<string>, a: string, b: string)
    requires a in ws && b in ws && a != b
    ensures Before(ws, a, b) || Before(ws, b, a)
  {
  }

  predicate RankedBy(ws: seq<string>, l: seq<string>) {
    forall i, j :: 0 <= i < j < |l| ==> Before(ws, l[i], l[j])
  }

  predicate NoDuplicates(l: seq<string>) {
    forall i, j :: 0 <= i < j < |l| ==> l[i] != l[j]
  }

  /** The distinct words of `ws` in first-seen order (the keys of `Counter(ws)`). */
  function Distinct(ws: seq<string>): (d: seq<string>)
    ensures forall w :: w in d <==> w in ws
    ensures NoDuplicates(d)
    ensures forall i, j :: 0 <= i < j < |d| ==> FirstIndex(ws, d[i]) < FirstIndex(ws, d[j])
    decreases |ws|
  {
    if ws == [] then []
    else
      var init := ws[..|ws| - 1];
      var last := ws[|ws| - 1];
      assert ws == init + [last];
      var d := Distinct(init);
      FirstIndexAppend(init, last);
      if last in d then d else d + [last]
  }

  /** Appending a word leaves the first occurrence of every earlier word where it was, and
      a new word's first occurrence is at the end. */
  lemma {:induction false} FirstIndexAppend(ws: seq<string>, x: string)
    ensures forall w :: w in ws ==> FirstIndex(ws + [x], w) == FirstIndex(ws, w)
    ensures x !in ws ==> FirstIndex(ws + [x], x) == |ws|
    decreases |ws|
  {
    if ws != [] {
      FirstIndexAppend(ws[1..], x);
      assert (ws + [x])[1..] == ws[1..] + [x];
    }
  }

  /** One step of the insertion sort: `x` placed before the first word it outranks. */
  function Insert(ws: seq<string>, x: string, l: seq<string>): (r: seq<string>)
    ensures multiset(r) == multiset(l) + multiset{x}
    ensures |r| == |l| + 1
    decreases |l|
  {
    if l == [] then [x]
    else if Before(ws, x, l[0]) then [x] + l
    else
      assert l == [l[0]] + l[1..];
      [l[0]] + Insert(ws, x, l[1..])
  }

  /** Sorting by rank. */
  function Rank(ws: seq<string>, l: seq<string>): (r: seq<string>)
    ensures multiset(r) == multiset(l)
    decreases |l|
  {
    if l == [] then []
    else
      assert l == [l[0]] + l[1..];
      Insert(ws, l[0], Rank(ws, l[1..]))
  }

  lemma {:induction false} InsertRanked(ws: seq<string>, x: string, l: seq<string>)
    requires RankedBy(ws, l)
    requires x in ws && x !in l
    requires forall y :: y in l ==> y in ws
    ensures RankedBy(ws, Insert(ws, x, l))
    decreases |l|
  {
    if l != [] && !Before(ws, x, l[0]) {
      BeforeTotal(ws, x, l[0]);
      var tail := l[1..];
      assert RankedBy(ws, tail);
      InsertRanked(ws, x, tail);
      var r := Insert(ws, x, l);
      var rest := Insert(ws, x, tail);
      assert r == [l[0]] + rest;
      forall j | 0 <= j < |rest| ensures Before(ws, l[0], rest[j]) {
        assert rest[j] in multiset(rest);
        if rest[j] != x {
          assert rest[j] in multiset(tail);
          var k :| 0 <= k < |tail| && tail[k] == rest[j];
          assert l[k + 1] == rest[j];
        }
      }
    }
  }

  lemma {:induction false} RankRanked(ws: seq<string>, l: seq<string>)
    requires NoDuplicates(l)
    requires forall y :: y in l ==> y in ws
    ensures RankedBy(ws, Rank(ws, l))
    decreases |l|
  {
    if l != [] {
      var tail := l[1..];
      RankRanked(ws, tail);
      assert forall k :: 0 <= k < |tail| ==> tail[k] == l[k + 1];
      assert l[0] !in tail;
      assert l[0] !in multiset(Rank(ws, tail));
      forall y | y in Rank(ws, tail) ensures y in ws {
        assert y in multiset(Rank(ws, tail));
      }
      InsertRanked(ws, l[0], Rank(ws, tail));
    }
  }

  /** `Counter(ws).most_common()`: every distinct word once, best ranked first. */
  function MostCommon(ws: seq<string>): (ranked: seq<string>)
    ensures forall w :: w in ranked <==> w in ws
    ensures RankedBy(ws, ranked)
    ensures NoDuplicates(ranked)
    ensures |ranked| == |Distinct(ws)|
  {
    var d := Distinct(ws);
    RankRanked(ws, d);
    var ranked := Rank(ws, d);
    assert |ranked| == |multiset(ranked)| == |multiset(d)| == |d|;
    forall w ensures w in ranked <==> w in d {
      assert w in ranked <==> w in multiset(ranked);
      assert w in d <==> w in multiset(d);
    }
    ranked
  }

  // ---------------------------------------------------------------------------
  // suggest_tags.
  // ---------------------------------------------------------------------------

  /** The first seven of `most_common()`: the tags for a keyword list. */
  function TopKeywords(keywords: seq<string>): (tags: seq<string>)
    ensures |tags| == (if |Distinct(keywords)| < TopN then |Distinct(keywords)| else TopN)
    ensures NoDuplicates(tags)
    ensures forall i :: 0 <= i < |tags| ==> tags[i] in keywords
    ensures RankedBy(keywords, tags)
    ensures |Distinct(keywords)| <= TopN ==> forall w :: w in keywords ==> w in tags
    ensures forall w, i :: w in keywords && w !in tags && 0 <= i < |tags| ==>
      Count(keywords, w) <= Count(keywords, tags[i])
    ensures forall w, i :: w in keywords && w !in tags && 0 <= i < |tags| ==> Before(keywords, tags[i], w)
  {
    var ranked := MostCommon(keywords);
    var tags := if |ranked| <= TopN then ranked else ranked[..TopN];
    assert forall w :: w in keywords && w !in tags ==> exists p :: TopN <= p < |ranked| && ranked[p] == w;
    tags
  }

  /** `suggest_tags`: nothing for an empty text or one of fewer than three words (counted
      before punctuation is removed), otherwise the top keywords. */
  function SuggestTags(text: string): (tags: seq<string>)
    ensures text == [] || |Words(text)| < 3 ==> tags == []
    ensures text != [] && |Words(text)| >= 3 ==> tags == TopKeywords(TextKeywords(text))
    ensures |tags| <= TopN
    ensures forall i :: 0 <= i < |tags| ==>
      tags[i] in Words(StripPunctuation(Lower(text))) && IsKeyword(tags[i])
  {
    if text == [] || |Words(text)| < 3 then []
    else
      var keywords := TextKeywords(text);
      if keywords == [] then [] else TopKeywords(keywords)
  }

  /** Every suggested tag is made of lowercase word characters only. */
  lemma TagsAreLowercaseWords(text: string)
    ensures forall i, k :: 0 <= i < |SuggestTags(text)| && 0 <= k < |SuggestTags(text)[i]| ==>
      IsWordChar(SuggestTags(text)[i][k]) && !IsUpper(SuggestTags(text)[i][k])
  {
    var tags := SuggestTags(text);
    var lowered := Lower(text);
    var cleaned := StripPunctuation(lowered);
    forall i, k | 0 <= i < |tags| && 0 <= k < |tags[i]|
      ensures IsWordChar(tags[i][k]) && !IsUpper(tags[i][k])
    {
      var c := tags[i][k];
      var j :| 0 <= j < |Words(cleaned)| && Words(cleaned)[j] == tags[i];
      assert c in Words(cleaned)[j];
      assert c in cleaned;
      assert c in lowered;
      var m :| 0 <= m < |lowered| && lowered[m] == c;
      assert !IsUpper(LowerChar(text[m]));
      var n :| 0 <= n < |cleaned| && cleaned[n] == c;
      assert IsWordChar(c) || IsSpace(c);
    }
  }
}
