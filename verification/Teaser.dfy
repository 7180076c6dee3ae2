/**
  The search result teaser: weighting the words of a page, choosing a window of words by
  weight, and cutting the teaser out of the original text.
 */
module Teaser {
  import opened Text

  const TERM_WEIGHT := 40
  const NORMAL_WORD_WEIGHT := 2
  const FIRST_WORD_WEIGHT := 8
  const TEASER_MAX_WORDS := 30

  /** A word of the lower-cased page, its weight, and where it starts. */
  datatype Weighted = Weighted(word: string, weight: int, index: nat)

  predicate IsTerm(lower: string -> string, terms: seq<string>, word: string)
  {
    exists k :: 0 <= k < |terms| && StartsWith(lower(word), terms[k])
  }

  // ---------------------------------------------------------------- weighting

  function Weight(lower: string -> string, terms: seq<string>, word: string, first: bool): (w: int)
    ensures w > 0
  {
    if IsTerm(lower, terms, word) then TERM_WEIGHT else if first then FIRST_WORD_WEIGHT else NORMAL_WORD_WEIGHT
  }

  /** The words of one sentence; `first` until a nonempty word has been seen. */
  function WeighWords(lower: string -> string, terms: seq<string>, words: seq<string>, first: bool,
      index: nat): seq<Weighted>
    decreases |words|
  {
    if |words| == 0 then []
    else
      var w := words[0];
      if w == "" then WeighWords(lower, terms, words[1..], first, index + 1)
      else [Weighted(w, Weight(lower, terms, w, first), index)]
           + WeighWords(lower, terms, words[1..], false, index + |w| + 1)
  }

  /** What the index advances by over the words of a sentence. */
  function Advance(words: seq<string>): nat
  {
    if |words| == 0 then 0 else |words[0]| + 1 + Advance(words[1..])
  }

  function WeighSentences(lower: string -> string, terms: seq<string>, sentences: seq<string>,
      index: nat): seq<Weighted>
    decreases |sentences|
  {
    if |sentences| == 0 then []
    else
      var words := SplitOn(sentences[0], ' ');
      WeighWords(lower, terms, words, true, index)
      + WeighSentences(lower, terms, sentences[1..], index + Advance(words) + 1)
  }

  function Weigh(lower: string -> string, terms: seq<string>, text: string): seq<Weighted>
  {
    WeighSentences(lower, terms, SplitStr(text, ". "), 0)
  }

  /** Some word starts with a search term. */
  ghost predicate HasTerm(ws: seq<Weighted>)
  {
    exists i :: 0 <= i < |ws| && ws[i].weight == TERM_WEIGHT
  }

  /** The words of one sentence, with the index behind them. */
  method CollectWords(lower: string -> string, terms: seq<string>, words: seq<string>, start: nat)
    returns (weighted: seq<Weighted>, index: nat, found: bool)
    ensures weighted == WeighWords(lower, terms, words, true, start)
    ensures index == start + Advance(words)
    ensures found <==> HasTerm(weighted)
  {
    weighted, index, found := [], start, false;
    var value := FIRST_WORD_WEIGHT;
    ghost var first := true;
    ghost var all := WeighWords(lower, terms, words, true, start);
    ghost var total := start + Advance(words);
    var j := 0;
    assert words[0..] == words && [] + all == all;
    while j < |words|
      invariant 0 <= j <= |words|
      invariant value == if first then FIRST_WORD_WEIGHT else NORMAL_WORD_WEIGHT
      invariant weighted + WeighWords(lower, terms, words[j..], first, index) == all
      invariant index + Advance(words[j..]) == total
      invariant found <==> HasTerm(weighted)
    {
      var word := words[j];
      AdvanceStep(words, j);
      if |word| > 0 {
        if IsTerm(lower, terms, word) {
          value := TERM_WEIGHT;
          found := true;
        }
        HasTermSnoc(weighted, Weighted(word, value, index));
        WordStep(lower, terms, words, j, first, index, weighted, value);
        weighted := weighted + [Weighted(word, value, index)];
        value := NORMAL_WORD_WEIGHT;
        first := false;
      } else {
        EmptyWordStep(lower, terms, words, j, first, index);
      }
      index := index + |word|;
      index := index + 1;
      j := j + 1;
    }
    assert words[j..] == [];
    assert weighted + [] == weighted;
  }

  lemma Regroup(a: seq<Weighted>, b: seq<Weighted>, c: seq<Weighted>)
    ensures a + (b + c) == (a + b) + c
  {
  }

  lemma AdvanceStep(words: seq<string>, j: nat)
    requires j < |words|
    ensures Advance(words[j..]) == |words[j]| + 1 + Advance(words[j + 1..])
  {
    assert words[j..][1..] == words[j + 1..] && words[j..][0] == words[j];
  }

  lemma EmptyWordStep(lower: string -> string, terms: seq<string>, words: seq<string>, j: nat, first: bool, index: nat)
    requires j < |words| && words[j] == ""
    ensures WeighWords(lower, terms, words[j..], first, index) == WeighWords(lower, terms, words[j + 1..], first,
        index + 1)
  {
    assert words[j..][1..] == words[j + 1..] && words[j..][0] == words[j];
  }

  lemma WordStep(
    lower: string -> string, terms: seq<string>, words: seq<string>, j: nat, first: bool, index: nat,
    done: seq<Weighted>, value: int)
    requires j < |words| && words[j] != "" && value == Weight(lower, terms, words[j], first)
    ensures done + WeighWords(lower, terms, words[j..], first, index) ==
            (done + [Weighted(words[j], value, index)]) + WeighWords(lower, terms, words[j + 1..], false,
                index + |words[j]| + 1)
  {
    assert words[j..][1..] == words[j + 1..] && words[j..][0] == words[j];
    Regroup(done, [Weighted(words[j], value, index)], WeighWords(lower, terms, words[j + 1..], false,
        index + |words[j]| + 1));
  }

  lemma HasTermSnoc(a: seq<Weighted>, w: Weighted)
    ensures HasTerm(a + [w]) <==> HasTerm(a) || w.weight == TERM_WEIGHT
  {
    HasTermConcat(a, [w]);
    assert [w][0] == w;
  }

  lemma HasTermConcat(a: seq<Weighted>, b: seq<Weighted>)
    ensures HasTerm(a + b) <==> HasTerm(a) || HasTerm(b)
  {
    if k :| 0 <= k < |a| && a[k].weight == TERM_WEIGHT { assert (a + b)[k] == a[k]; }
    if k :| 0 <= k < |b| && b[k].weight == TERM_WEIGHT { assert (a + b)[|a| + k] == b[k]; }
  }

  method Collect(lower: string -> string, terms: seq<string>, text: string)
    returns (weighted: seq<Weighted>, termFound: bool)
    ensures weighted == Weigh(lower, terms, text)
    ensures termFound <==> HasTerm(weighted)
  {
    var sentences := SplitStr(text, ". ");
    weighted, termFound := CollectAll(lower, terms, sentences);
  }

  method CollectAll(lower: string -> string, terms: seq<string>, sentences: seq<string>)
    returns (weighted: seq<Weighted>, termFound: bool)
    ensures weighted == WeighSentences(lower, terms, sentences, 0)
    ensures termFound <==> HasTerm(weighted)
  {
    weighted, termFound := [], false;
    var index := 0;
    var i := 0;
    ghost var all := WeighSentences(lower, terms, sentences, 0);
    assert sentences[0..] == sentences && [] + all == all;
    while i < |sentences|
      invariant 0 <= i <= |sentences|
      invariant weighted + WeighSentences(lower, terms, sentences[i..], index) == all
      invariant termFound <==> HasTerm(weighted)
    {
      var words := SplitOn(sentences[i], ' ');
      var part, next, found := CollectWords(lower, terms, words, index);
      WeighStep(lower, terms, sentences, i, index, weighted, part, next);
      HasTermConcat(weighted, part);
      weighted := weighted + part;
      termFound := termFound || found;
      index := next + 1;
      i := i + 1;
    }
    assert sentences[i..] == [];
    assert weighted + [] == weighted;
  }

  lemma WeighStep(
    lower: string -> string, terms: seq<string>, sentences: seq<string>, i: nat, index: nat,
    done: seq<Weighted>, part: seq<Weighted>, next: nat)
    requires i < |sentences|
    requires part == WeighWords(lower, terms, SplitOn(sentences[i], ' '), true, index)
    requires next == index + Advance(SplitOn(sentences[i], ' '))
    ensures done + WeighSentences(lower, terms, sentences[i..], index) ==
            (done + part) + WeighSentences(lower, terms, sentences[i + 1..], next + 1)
  {
    assert sentences[i..][1..] == sentences[i + 1..] && sentences[i..][0] == sentences[i];
    Regroup(done, part, WeighSentences(lower, terms, sentences[i + 1..], next + 1));
  }

  // ---------------------------------------------------------------- offsets locate words

  predicate At(text: string, w: Weighted)
  {
    w.word != "" && w.index + |w.word| <= |text| && text[w.index..w.index + |w.word|] == w.word
  }

  function End(w: Weighted): nat { w.index + |w.word| }

  /** Words are found where recorded, between `lo` and `hi`, each behind the end of the one before. */
  ghost predicate Chain(text: string, ws: seq<Weighted>, lo: nat, hi: nat)
    decreases |ws|
  {
    |ws| == 0 ||
    (At(text, ws[0]) && lo <= ws[0].index && End(ws[0]) <= hi && Chain(text, ws[1..], End(ws[0]) + 1, hi))
  }

  /** The same, for any two words. */
  ghost predicate Located(text: string, ws: seq<Weighted>)
  {
    && (forall i :: 0 <= i < |ws| ==> At(text, ws[i]))
    && (forall i, j :: 0 <= i < j < |ws| ==> End(ws[i]) < ws[j].index)
  }

  lemma {:induction false} ChainLocated(text: string, ws: seq<Weighted>, lo: nat, hi: nat)
    requires Chain(text, ws, lo, hi)
    ensures Located(text, ws)
    ensures forall i :: 0 <= i < |ws| ==> lo <= ws[i].index
    decreases |ws|
  {
    if |ws| > 0 {
      var rest := ws[1..];
      ChainLocated(text, rest, End(ws[0]) + 1, hi);
      forall i | 0 <= i < |ws| ensures At(text, ws[i]) && lo <= ws[i].index {
        if i > 0 { assert ws[i] == rest[i - 1]; }
      }
      forall i, j | 0 <= i < j < |ws| ensures End(ws[i]) < ws[j].index {
        assert ws[j] == rest[j - 1];
        if i > 0 { assert ws[i] == rest[i - 1]; }
      }
    }
  }

  lemma {:induction false} ChainConcat(text: string, a: seq<Weighted>, b: seq<Weighted>, lo: nat, mid: nat, hi: nat)
    requires lo <= mid + 1 && mid <= hi && Chain(text, a, lo, mid) && Chain(text, b, mid + 1, hi)
    ensures Chain(text, a + b, lo, hi)
    decreases |a|
  {
    if |a| == 0 {
      assert a + b == b;
    } else {
      assert (a + b)[1..] == a[1..] + b;
      ChainConcat(text, a[1..], b, End(a[0]) + 1, mid, hi);
    }
  }

  lemma {:induction false} AdvanceIs(words: seq<string>)
    requires |words| > 0
    ensures Advance(words) == |Join(words, " ")| + 1
  {
    if |words| == 1 {
      assert Advance(words[1..]) == 0;
    } else {
      AdvanceIs(words[1..]);
    }
  }

  /** A part of a text that occurs at `index` occurs at the shifted position. */
  lemma PartAt(text: string, index: nat, s: string, a: nat, b: nat)
    requires index + |s| <= |text| && text[index..index + |s|] == s && a <= b <= |s|
    ensures text[index + a..index + b] == s[a..b]
  {
    forall i | 0 <= i < b - a ensures text[index + a..index + b][i] == s[a..b][i] {
      assert text[index..index + |s|][a + i] == text[index + a + i];
    }
  }

  lemma JoinParts(words: seq<string>, sep: string)
    requires |words| > 0
    ensures var s := Join(words, sep);
            && |words[0]| <= |s| && s[..|words[0]|] == words[0]
            && (|words| > 1 ==> |words[0]| + |sep| <= |s| && s[|words[0]| + |sep|..] == Join(words[1..], sep))
  {
  }

  /** The first word is at `index`, and the rest one character behind its end. */
  lemma WordAt(text: string, words: seq<string>, index: nat)
    requires |words| > 0
    requires var s := Join(words, " "); index + |s| <= |text| && text[index..index + |s|] == s
    ensures var w := words[0];
            && |w| <= |Join(words, " ")| && text[index..index + |w|] == w
            && (|words| > 1 ==>
                  var at, tail := index + |w| + 1, Join(words[1..], " ");
                  at + |tail| == index + |Join(words, " ")| && text[at..at + |tail|] == tail)
  {
    var s, w := Join(words, " "), words[0];
    JoinParts(words, " ");
    PartAt(text, index, s, 0, |w|);
    if |words| > 1 {
      PartAt(text, index, s, |w| + 1, |s|);
      assert s[|w| + 1..|s|] == s[|w| + 1..];
    }
  }

  lemma {:induction false} WordsLocated(
    lower: string -> string, terms: seq<string>, text: string, words: seq<string>, first: bool, index: nat)
    requires |words| > 0
    requires var s := Join(words, " "); index + |s| <= |text| && text[index..index + |s|] == s
    ensures Chain(text, WeighWords(lower, terms, words, first, index), index, index + |Join(words, " ")|)
    decreases |words|
  {
    var w := words[0];
    var at, hi, still := index + |w| + 1, index + |Join(words, " ")|, if w == "" then first else false;
    var rest := WeighWords(lower, terms, words[1..], still, at);
    WordAt(text, words, index);
    if |words| == 1 {
      assert rest == [];
    } else {
      WordsLocated(lower, terms, text, words[1..], still, at);
    }
    assert Chain(text, rest, at, hi);
    if w == "" {
      LooserChain(text, rest, at, hi);
    } else {
      PrependChain(text, Weighted(w, Weight(lower, terms, w, first), index), rest, hi);
    }
  }

  lemma PrependChain(text: string, w: Weighted, rest: seq<Weighted>, hi: nat)
    requires At(text, w) && End(w) <= hi && Chain(text, rest, End(w) + 1, hi)
    ensures Chain(text, [w] + rest, w.index, hi)
  {
    assert ([w] + rest)[1..] == rest;
  }

  /** The first sentence is at `index`, and the rest two characters behind its end. */
  lemma SentenceStep(text: string, sentences: seq<string>, index: nat)
    requires |sentences| > 0
    requires var s := Join(sentences, ". "); index + |s| == |text| && text[index..] == s
    ensures var first := sentences[0];
            && index + |first| <= |text| && text[index..index + |first|] == first
            && (|sentences| > 1 ==>
                  var next := index + |first| + 2;
                  next + |Join(sentences[1..], ". ")| == |text| && text[next..] == Join(sentences[1..], ". "))
  {
    var s, first := Join(sentences, ". "), sentences[0];
    JoinParts(sentences, ". ");
    assert text[index..index + |s|] == text[index..];
    PartAt(text, index, s, 0, |first|);
    if |sentences| > 1 {
      PartAt(text, index, s, |first| + 2, |s|);
      assert s[|first| + 2..|s|] == s[|first| + 2..];
      assert text[index + |first| + 2..|text|] == text[index + |first| + 2..];
    }
  }

  lemma SplitSentence(sentence: string)
    ensures Join(SplitOn(sentence, ' '), " ") == sentence
    ensures Advance(SplitOn(sentence, ' ')) == |sentence| + 1
  {
    JoinSplit(sentence, ' ');
    AdvanceIs(SplitOn(sentence, ' '));
  }

  lemma LooserChain(text: string, ws: seq<Weighted>, lo: nat, hi: nat)
    requires lo > 0 && Chain(text, ws, lo, hi)
    ensures Chain(text, ws, lo - 1, hi)
  {
  }

  lemma {:induction false} RaiseChain(text: string, ws: seq<Weighted>, lo: nat, hi: nat, higher: nat)
    requires Chain(text, ws, lo, hi) && hi <= higher
    ensures Chain(text, ws, lo, higher)
    decreases |ws|
  {
    if |ws| > 0 { RaiseChain(text, ws[1..], End(ws[0]) + 1, hi, higher); }
  }

  /** The words of one sentence, and those of the sentences two characters behind its end. */
  lemma ChainTwo(text: string, a: seq<Weighted>, b: seq<Weighted>, lo: nat, mid: nat, hi: nat)
    requires lo <= mid && mid + 2 <= hi && Chain(text, a, lo, mid) && Chain(text, b, mid + 2, hi)
    ensures Chain(text, a + b, lo, hi)
  {
    LooserChain(text, b, mid + 2, hi);
    ChainConcat(text, a, b, lo, mid, hi);
  }

  /** One sentence in front of the located words of the others. */
  lemma SentenceLocated(
    lower: string -> string, terms: seq<string>, text: string, words: seq<string>, index: nat, rest: seq<Weighted>)
    requires |words| > 0
    requires var s := Join(words, " "); index + |s| <= |text| && text[index..index + |s|] == s
    requires var next := index + |Join(words, " ")| + 2;
             rest == [] || (next <= |text| && Chain(text, rest, next, |text|))
    ensures Chain(text, WeighWords(lower, terms, words, true, index) + rest, index, |text|)
  {
    var a, end := WeighWords(lower, terms, words, true, index), index + |Join(words, " ")|;
    WordsLocated(lower, terms, text, words, true, index);
    if rest == [] {
      assert a + rest == a;
      RaiseChain(text, a, index, end, |text|);
    } else {
      ChainTwo(text, a, rest, index, end, |text|);
    }
  }

  lemma {:induction false} SentencesLocated(
    lower: string -> string, terms: seq<string>, text: string, sentences: seq<string>, index: nat)
    requires |sentences| > 0
    requires var s := Join(sentences, ". "); index + |s| == |text| && text[index..] == s
    ensures Chain(text, WeighSentences(lower, terms, sentences, index), index, |text|)
    decreases |sentences|
  {
    var first := sentences[0];
    var words, next := SplitOn(first, ' '), index + |first| + 2;
    var rest := WeighSentences(lower, terms, sentences[1..], next);
    SentenceStep(text, sentences, index);
    SplitSentence(first);
    if |sentences| > 1 { SentencesLocated(lower, terms, text, sentences[1..], next); }
    SentenceLocated(lower, terms, text, words, index, rest);
  }

  /** Every recorded offset locates its word in the lower-cased text. */
  lemma OffsetsLocateWords(lower: string -> string, terms: seq<string>, text: string)
    ensures Located(text, Weigh(lower, terms, text))
  {
    JoinSplitStr(text, ". ");
    SentencesLocated(lower, terms, text, SplitStr(text, ". "), 0);
    ChainLocated(text, Weigh(lower, terms, text), 0, |text|);
  }

  lemma {:induction false} WordWeightsPositive(
    lower: string -> string, terms: seq<string>, words: seq<string>, first: bool, index: nat)
    ensures forall i :: 0 <= i < |WeighWords(lower, terms, words, first, index)| ==>
        WeighWords(lower, terms, words, first, index)[i].weight > 0
    decreases |words|
  {
    if |words| > 0 {
      WordWeightsPositive(lower, terms, words[1..], first, index + 1);
      WordWeightsPositive(lower, terms, words[1..], false, index + |words[0]| + 1);
    }
  }

  lemma {:induction false} WeightsPositive(
    lower: string -> string, terms: seq<string>, sentences: seq<string>, index: nat)
    ensures forall i :: 0 <= i < |WeighSentences(lower, terms, sentences, index)| ==>
        WeighSentences(lower, terms, sentences, index)[i].weight > 0
    decreases |sentences|
  {
    if |sentences| > 0 {
      var words := SplitOn(sentences[0], ' ');
      WordWeightsPositive(lower, terms, words, true, index);
      WeightsPositive(lower, terms, sentences[1..], index + Advance(words) + 1);
    }
  }

  // ---------------------------------------------------------------- what the weights are

  /** The words of a sentence are its nonempty pieces between blanks; terms weigh 40, a first word 8, others 2. */
  ghost predicate Weighs(lower: string -> string, terms: seq<string>, sentence: string, part: seq<Weighted>)
  {
    var words := NonEmpty(SplitOn(sentence, ' '));
    && |part| == |words|
    && forall j :: 0 <= j < |words| ==>
         && part[j].word == words[j]
         && part[j].weight ==
            if exists k :: 0 <= k < |terms| && terms[k] <= lower(words[j]) then 40 else if j == 0 then 8 else 2
  }

  function WeightOf(lower: string -> string, terms: seq<string>): (string, bool) -> int
  {
    (word: string, first: bool) => Weight(lower, terms, word, first)
  }

  ghost predicate Weighed(weightOf: (string, bool) -> int, words: seq<string>, first: bool, part: seq<Weighted>)
  {
    && |part| == |words|
    && forall j :: 0 <= j < |words| ==>
         part[j].word == words[j] && part[j].weight == weightOf(words[j], first && j == 0)
  }

  lemma WeighedCons(
    weightOf: (string, bool) -> int, word: string, words: seq<string>, first: bool, index: nat, part: seq<Weighted>)
    requires Weighed(weightOf, words, false, part)
    ensures Weighed(weightOf, [word] + words, first, [Weighted(word, weightOf(word, first), index)] + part)
  {
  }

  lemma WeighWordsCons(
    lower: string -> string, terms: seq<string>, words: seq<string>, first: bool, index: nat)
    returns (w: int)
    requires |words| > 0 && words[0] != ""
    ensures w == WeightOf(lower, terms)(words[0], first)
    ensures WeighWords(lower, terms, words, first, index) ==
            [Weighted(words[0], w, index)] + WeighWords(lower, terms, words[1..], false, index + |words[0]| + 1)
  {
    w := Weight(lower, terms, words[0], first);
  }

  lemma NonEmptyCons(words: seq<string>)
    requires |words| > 0
    ensures NonEmpty(words) == if words[0] == "" then NonEmpty(words[1..]) else [words[0]] + NonEmpty(words[1..])
  {
  }

  lemma {:induction false} WeighWordsIs(
    lower: string -> string, terms: seq<string>, words: seq<string>, first: bool, index: nat)
    ensures Weighed(WeightOf(lower, terms), NonEmpty(words), first, WeighWords(lower, terms, words, first, index))
    decreases |words|
  {
    if |words| > 0 {
      NonEmptyCons(words);
      if words[0] == "" {
        WeighWordsIs(lower, terms, words[1..], first, index + 1);
      } else {
        var next := index + |words[0]| + 1;
        WeighWordsIs(lower, terms, words[1..], false, next);
        var w := WeighWordsCons(lower, terms, words, first, index);
        WeighedCons(WeightOf(lower, terms), words[0], NonEmpty(words[1..]), first, index,
                    WeighWords(lower, terms, words[1..], false, next));
      }
    }
  }

  lemma SentenceWeighs(lower: string -> string, terms: seq<string>, sentence: string, index: nat)
    ensures Weighs(lower, terms, sentence, WeighWords(lower, terms, SplitOn(sentence, ' '), true, index))
  {
    var words := NonEmpty(SplitOn(sentence, ' '));
    var part := WeighWords(lower, terms, SplitOn(sentence, ' '), true, index);
    WeighWordsIs(lower, terms, SplitOn(sentence, ' '), true, index);
    forall j | 0 <= j < |words|
      ensures part[j].weight ==
              if exists k :: 0 <= k < |terms| && terms[k] <= lower(words[j]) then 40 else if j == 0 then 8 else 2
    {
      assert part[j].weight == WeightOf(lower, terms)(words[j], true && j == 0);
      TermWeight(lower, terms, words[j], j == 0);
    }
  }

  lemma TermWeight(lower: string -> string, terms: seq<string>, word: string, first: bool)
    ensures Weight(lower, terms, word, first) ==
            if exists k :: 0 <= k < |terms| && terms[k] <= lower(word) then 40 else if first then 8 else 2
  {
    if k :| 0 <= k < |terms| && terms[k] <= lower(word) { assert StartsWith(lower(word), terms[k]); }
  }

  function Concat(parts: seq<seq<Weighted>>): seq<Weighted>
  {
    if |parts| == 0 then [] else parts[0] + Concat(parts[1..])
  }

  lemma {:induction false} SentencesWeigh(
    lower: string -> string, terms: seq<string>, sentences: seq<string>, index: nat)
    returns (parts: seq<seq<Weighted>>)
    ensures |parts| == |sentences| && Concat(parts) == WeighSentences(lower, terms, sentences, index)
    ensures forall i :: 0 <= i < |parts| ==> Weighs(lower, terms, sentences[i], parts[i])
    decreases |sentences|
  {
    if |sentences| == 0 {
      parts := [];
    } else {
      var words := SplitOn(sentences[0], ' ');
      SentenceWeighs(lower, terms, sentences[0], index);
      var rest := SentencesWeigh(lower, terms, sentences[1..], index + Advance(words) + 1);
      parts := [WeighWords(lower, terms, words, true, index)] + rest;
      assert parts[1..] == rest;
    }
  }

  /** The weighted words of a text, sentence by sentence. */
  lemma WeighIs(lower: string -> string, terms: seq<string>, text: string) returns (parts: seq<seq<Weighted>>)
    ensures |parts| == |SplitStr(text, ". ")| && Concat(parts) == Weigh(lower, terms, text)
    ensures forall i :: 0 <= i < |parts| ==> Weighs(lower, terms, SplitStr(text, ". ")[i], parts[i])
  {
    parts := SentencesWeigh(lower, terms, SplitStr(text, ". "), 0);
  }

  // ---------------------------------------------------------------- the window

  function SumWeights(ws: seq<Weighted>): int
  {
    if |ws| == 0 then 0 else SumWeights(ws[..|ws| - 1]) + ws[|ws| - 1].weight
  }

  function WindowSize(ws: seq<Weighted>): nat
  {
    if |ws| < TEASER_MAX_WORDS then |ws| else TEASER_MAX_WORDS
  }

  function Window(ws: seq<Weighted>, i: nat): seq<Weighted>
    requires i + WindowSize(ws) <= |ws|
  {
    ws[i..i + WindowSize(ws)]
  }

  lemma {:induction false} SumDropFirst(ws: seq<Weighted>)
    requires |ws| > 0
    ensures SumWeights(ws[1..]) == SumWeights(ws) - ws[0].weight
  {
    var front := ws[..|ws| - 1];
    if |ws| == 1 {
      assert ws[1..] == [] && front == [];
    } else {
      SumDropFirst(front);
      assert ws[1..][..|ws| - 2] == front[1..];
    }
  }

  /** Sliding the window by one word. */
  lemma SlideSum(ws: seq<Weighted>, i: nat, size: nat)
    requires size > 0 && i + size < |ws|
    ensures SumWeights(ws[i + 1..i + 1 + size]) == SumWeights(ws[i..i + size]) - ws[i].weight + ws[i + size].weight
  {
    var longer := ws[i..i + 1 + size];
    assert longer[..size] == ws[i..i + size] && longer[1..] == ws[i + 1..i + 1 + size];
    SumDropFirst(longer);
  }

  lemma {:induction false} SumPositive(ws: seq<Weighted>)
    requires |ws| > 0 && forall i :: 0 <= i < |ws| ==> ws[i].weight > 0
    ensures SumWeights(ws) > 0
  {
    if |ws| > 1 { SumPositive(ws[..|ws| - 1]); }
  }

  /** Each value is the direct sum over its window. */
  method SlidingWindow(ws: seq<Weighted>) returns (windowWeights: seq<int>)
    requires |ws| > 0
    ensures |windowWeights| == |ws| - WindowSize(ws) + 1
    ensures forall i :: 0 <= i < |windowWeights| ==> windowWeights[i] == SumWeights(Window(ws, i))
  {
    var size := WindowSize(ws);
    var curSum := 0;
    var i := 0;
    while i < size
      invariant 0 <= i <= size
      invariant curSum == SumWeights(ws[..i])
    {
      assert ws[..i + 1][..i] == ws[..i];
      curSum := curSum + ws[i].weight;
      i := i + 1;
    }
    windowWeights := [curSum];
    assert ws[..size] == Window(ws, 0);
    i := 0;
    while i < |ws| - size
      invariant 0 <= i <= |ws| - size
      invariant |windowWeights| == i + 1 && curSum == SumWeights(Window(ws, i))
      invariant forall k :: 0 <= k <= i ==> windowWeights[k] == SumWeights(Window(ws, k))
    {
      SlideSum(ws, i, size);
      curSum := curSum - ws[i].weight;
      curSum := curSum + ws[i + size].weight;
      windowWeights := windowWeights + [curSum];
      i := i + 1;
    }
  }

  /** The last window of greatest weight when a term was found, else the first window. */
  ghost predicate Chosen(ws: seq<Weighted>, termFound: bool, m: nat)
  {
    && m + WindowSize(ws) <= |ws|
    && (!termFound ==> m == 0)
    && (termFound ==> forall k: nat :: k + WindowSize(ws) <= |ws| ==>
          && SumWeights(Window(ws, k)) <= SumWeights(Window(ws, m))
          && (k > m ==> SumWeights(Window(ws, k)) < SumWeights(Window(ws, m))))
  }

  method ChooseWindow(ws: seq<Weighted>, termFound: bool) returns (m: nat)
    requires |ws| > 0 && forall i :: 0 <= i < |ws| ==> ws[i].weight > 0
    ensures Chosen(ws, termFound, m)
  {
    var weights := SlidingWindow(ws);
    m := 0;
    if termFound {
      var maxFound := 0;
      var i := |weights| - 1;
      while i >= 0
        invariant -1 <= i < |weights| && 0 <= m < |weights|
        invariant i == |weights| - 1 ==> maxFound == 0
        invariant i < |weights| - 1 ==> m > i && maxFound == weights[m]
        invariant forall k :: i < k < |weights| ==> weights[k] <= maxFound && (k > m ==> weights[k] < maxFound)
      {
        SumPositive(Window(ws, i));
        if weights[i] > maxFound {
          maxFound := weights[i];
          m := i;
        }
        i := i - 1;
      }
    }
  }

  // ---------------------------------------------------------------- cutting the teaser

  datatype Piece = Plain(text: string) | BoldOn | BoldOff | Ellipsis

  /** The list of pieces, grown by pushing at its end. */
  datatype Pieces = Empty | Push(before: Pieces, last: Piece)

  function Render(t: Pieces): string
  {
    match t
    case Empty => ""
    case Push(before, Plain(text)) => Render(before) + text
    case Push(before, BoldOn) => Render(before) + "<b>"
    case Push(before, BoldOff) => Render(before) + "</b>"
    case Push(before, Ellipsis) => Render(before) + "\U{2026}"
  }

  /** String.prototype.substring: positions are clipped, and swapped if in the wrong order. */
  function Substring(s: string, a: nat, b: nat): string
  {
    var x, y := if a < |s| then a else |s|, if b < |s| then b else |s|;
    if x <= y then s[x..y] else s[y..x]
  }

  function PushGap(t: Pieces, body: string, start: nat, w: Weighted): Pieces
  {
    if start < w.index then Push(t, Plain(Substring(body, start, w.index))) else t
  }

  function PushTag(t: Pieces, w: Weighted, tag: Piece): Pieces
  {
    if w.weight == TERM_WEIGHT then Push(t, tag) else t
  }

  /** The text before a word, and the word, in bold if it is a term. */
  function PushWord(t: Pieces, body: string, start: nat, w: Weighted): Pieces
  {
    var bold := PushTag(PushGap(t, body, start, w), w, BoldOn);
    PushTag(Push(bold, Plain(Substring(body, w.index, w.index + |w.word|))), w, BoldOff)
  }

  /** Where the text is cut after the first `n` words of the window. */
  function CutAt(ws: seq<Weighted>, n: nat): nat
    requires |ws| > 0 && n <= |ws|
  {
    if n == 0 then ws[0].index else End(ws[n - 1])
  }

  /** The pieces of the first `n` words of a window. */
  function Assemble(body: string, ws: seq<Weighted>, n: nat): Pieces
    requires |ws| > 0 && n <= |ws|
  {
    if n == 0 then Empty else PushWord(Assemble(body, ws, n - 1), body, CutAt(ws, n - 1), ws[n - 1])
  }

  method Cut(body: string, ws: seq<Weighted>) returns (teaser: Pieces)
    requires |ws| > 0
    ensures teaser == Push(Assemble(body, ws, |ws|), Ellipsis)
  {
    teaser := Empty;
    var startIndex := ws[0].index;
    var i := 0;
    while i < |ws|
      invariant 0 <= i <= |ws| && startIndex == CutAt(ws, i)
      invariant teaser == Assemble(body, ws, i)
    {
      var word := ws[i];
      if startIndex < word.index {
        teaser := Push(teaser, Plain(Substring(body, startIndex, word.index)));
        startIndex := word.index;
      }
      if word.weight == TERM_WEIGHT {
        teaser := Push(teaser, BoldOn);
      }
      startIndex := word.index + |word.word|;
      teaser := Push(teaser, Plain(Substring(body, word.index, startIndex)));
      if word.weight == TERM_WEIGHT {
        teaser := Push(teaser, BoldOff);
      }
      i := i + 1;
    }
    teaser := Push(teaser, Ellipsis);
  }

  /**
    The pieces of the window chosen among the words, with their tags, and an ellipsis. Where
    lower-casing moves words out of the text the program still renders what it cuts.
   */
  ghost predicate TeaserOf(body: string, ws: seq<Weighted>, termFound: bool, teaser: string)
  {
    exists m :: Chosen(ws, termFound, m) && WindowTeaser(body, Window(ws, m), teaser)
  }

  ghost predicate WindowTeaser(body: string, ws: seq<Weighted>, teaser: string)
  {
    && |ws| > 0
    && teaser == Render(Push(Assemble(body, ws, |ws|), Ellipsis))
    && (InOrder(ws, |body|) ==>
          exists pieces :: Woven(body, ws, true, pieces) && teaser == Join(pieces, "") + "\U{2026}")
  }

  method TeaserFrom(body: string, ws: seq<Weighted>, termFound: bool) returns (teaser: string)
    requires |ws| > 0 && forall i :: 0 <= i < |ws| ==> ws[i].weight > 0
    ensures TeaserOf(body, ws, termFound, teaser)
  {
    var k := ChooseWindow(ws, termFound);
    var window := ws[k..k + WindowSize(ws)];
    var pieces := Cut(body, window);
    teaser := Render(pieces);
    WindowRendered(body, window);
    assert WindowTeaser(body, Window(ws, k), teaser);
  }

  lemma WindowRendered(body: string, ws: seq<Weighted>)
    requires |ws| > 0
    ensures WindowTeaser(body, ws, Render(Push(Assemble(body, ws, |ws|), Ellipsis)))
  {
    if InOrder(ws, |body|) {
      var pieces := AssembleRendered(body, ws, |ws|);
      assert Woven(body, ws, true, pieces);
    }
  }

  /** The body if it has no words; else the chosen window, its term words in bold, and an ellipsis. */
  method MakeTeaser(lower: string -> string, body: string, rawTerms: seq<string>) returns (teaser: string)
    ensures var ws := Weigh(lower, Lowered(lower, rawTerms), lower(body));
            if ws == [] then teaser == body else TeaserOf(body, ws, HasTerm(ws), teaser)
  {
    var terms := Lowered(lower, rawTerms);
    var weighted, termFound := Collect(lower, terms, lower(body));
    if |weighted| == 0 {
      return body;
    }
    WeightsPositive(lower, terms, SplitStr(lower(body), ". "), 0);
    teaser := TeaserFrom(body, weighted, termFound);
  }

  function Lowered(lower: string -> string, terms: seq<string>): (r: seq<string>)
    ensures |r| == |terms| && forall i :: 0 <= i < |r| ==> r[i] == lower(terms[i])
  {
    seq(|terms|, i requires 0 <= i < |terms| => lower(terms[i]))
  }

  /** Words lie inside the text, each behind the end of every earlier one. */
  ghost predicate InOrder(ws: seq<Weighted>, length: nat)
  {
    && (forall k :: 0 <= k < |ws| ==> End(ws[k]) <= length)
    && (forall i, j :: 0 <= i < j < |ws| ==> End(ws[i]) <= ws[j].index)
  }

  /**
    The `i`-th piece of a window: the text since the word before, and the word, in bold if it is a
    term and `tagged` is set.
   */
  ghost predicate IsPiece(body: string, ws: seq<Weighted>, i: nat, tagged: bool, piece: string)
  {
    && i < |ws|
    && var start := if i == 0 then ws[0].index else ws[i - 1].index + |ws[i - 1].word|;
       var end := ws[i].index + |ws[i].word|;
       && start <= ws[i].index && end <= |body|
       && piece == body[start..ws[i].index] + (if tagged && ws[i].weight == 40 then "<b>" else "")
                   + body[ws[i].index..end] + (if tagged && ws[i].weight == 40 then "</b>" else "")
  }

  ghost predicate Woven(body: string, ws: seq<Weighted>, tagged: bool, pieces: seq<string>)
  {
    |pieces| == |ws| && forall i :: 0 <= i < |pieces| ==> IsPiece(body, ws, i, tagged, pieces[i])
  }

  lemma FiveParts(a: string, b: string, c: string, d: string, e: string)
    ensures (((a + b) + c) + d) + e == a + (b + c + d + e)
  {
  }

  lemma GapRendered(t: Pieces, body: string, start: nat, w: Weighted)
    requires start <= w.index <= |body|
    ensures Render(PushGap(t, body, start, w)) == Render(t) + body[start..w.index]
  {
    assert Render(t) + "" == Render(t);
  }

  lemma TagRendered(t: Pieces, w: Weighted)
    ensures Render(PushTag(t, w, BoldOn)) == Render(t) + (if w.weight == 40 then "<b>" else "")
    ensures Render(PushTag(t, w, BoldOff)) == Render(t) + (if w.weight == 40 then "</b>" else "")
  {
    assert Render(t) + "" == Render(t);
  }

  lemma WordRendered(t: Pieces, w: Weighted, word: string)
    ensures Render(PushTag(Push(PushTag(t, w, BoldOn), Plain(word)), w, BoldOff)) ==
            ((Render(t) + (if w.weight == 40 then "<b>" else "")) + word) + (if w.weight == 40 then "</b>" else "")
  {
    TagRendered(t, w);
    TagRendered(Push(PushTag(t, w, BoldOn), Plain(word)), w);
  }

  lemma PushWordIs(t: Pieces, body: string, start: nat, w: Weighted)
    requires w.index + |w.word| <= |body|
    ensures PushWord(t, body, start, w) ==
            PushTag(Push(PushTag(PushGap(t, body, start, w), w, BoldOn),
                         Plain(body[w.index..w.index + |w.word|])), w, BoldOff)
  {
  }

  lemma PushWordRendered(t: Pieces, body: string, start: nat, w: Weighted)
    returns (gap: string, open: string, word: string, close: string)
    requires start <= w.index && w.index + |w.word| <= |body|
    ensures gap == body[start..w.index] && word == body[w.index..w.index + |w.word|]
    ensures open == (if w.weight == 40 then "<b>" else "") && close == (if w.weight == 40 then "</b>" else "")
    ensures Render(PushWord(t, body, start, w)) == Render(t) + (gap + open + word + close)
  {
    gap, word := body[start..w.index], body[w.index..w.index + |w.word|];
    open, close := if w.weight == 40 then "<b>" else "", if w.weight == 40 then "</b>" else "";
    PushWordIs(t, body, start, w);
    GapRendered(t, body, start, w);
    WordRendered(PushGap(t, body, start, w), w, word);
    FiveParts(Render(t), gap, open, word, close);
  }

  lemma LastRendered(body: string, ws: seq<Weighted>, n: nat) returns (piece: string)
    requires 0 < n <= |ws| && InOrder(ws, |body|)
    ensures IsPiece(body, ws, n - 1, true, piece)
    ensures Render(Assemble(body, ws, n)) == Render(Assemble(body, ws, n - 1)) + piece
  {
    var start, w := CutAt(ws, n - 1), ws[n - 1];
    assert start <= w.index && End(w) <= |body|;
    var gap, open, word, close := PushWordRendered(Assemble(body, ws, n - 1), body, start, w);
    piece := gap + open + word + close;
  }

  lemma {:induction false} AssembleRendered(body: string, ws: seq<Weighted>, n: nat) returns (pieces: seq<string>)
    requires |ws| > 0 && n <= |ws| && InOrder(ws, |body|)
    ensures |pieces| == n && forall i :: 0 <= i < n ==> IsPiece(body, ws, i, true, pieces[i])
    ensures Render(Assemble(body, ws, n)) == Join(pieces, "")
  {
    if n == 0 {
      pieces := [];
    } else {
      var front := AssembleRendered(body, ws, n - 1);
      var piece := LastRendered(body, ws, n);
      JoinSnoc(front, piece);
      pieces := front + [piece];
    }
  }

  lemma SliceJoin(s: string, a: nat, b: nat, c: nat)
    requires a <= b <= c <= |s|
    ensures s[a..b] + s[b..c] == s[a..c] && s[a..b] + "" + s[b..c] + "" == s[a..c]
  {
  }

  lemma PlainPiece(body: string, ws: seq<Weighted>, i: nat)
    requires i < |ws| && InOrder(ws, |body|)
    ensures CutAt(ws, i) <= ws[i].index && IsPiece(body, ws, i, false, body[CutAt(ws, i)..End(ws[i])])
  {
    assert CutAt(ws, i) <= ws[i].index && End(ws[i]) <= |body|;
    SliceJoin(body, CutAt(ws, i), ws[i].index, End(ws[i]));
  }

  /** Without tags the pieces of the leading words add up to the body from the first of them on. */
  lemma {:induction false} PlainPieces(body: string, ws: seq<Weighted>, n: nat) returns (plain: seq<string>)
    requires |ws| > 0 && n <= |ws| && InOrder(ws, |body|)
    ensures |plain| == n && forall i :: 0 <= i < n ==> IsPiece(body, ws, i, false, plain[i])
    ensures ws[0].index <= CutAt(ws, n) <= |body| && Join(plain, "") == body[ws[0].index..CutAt(ws, n)]
  {
    if n == 0 {
      plain := [];
      assert End(ws[0]) <= |body|;
    } else {
      var front := PlainPieces(body, ws, n - 1);
      var piece := body[CutAt(ws, n - 1)..End(ws[n - 1])];
      PlainPiece(body, ws, n - 1);
      JoinSnoc(front, piece);
      SliceJoin(body, ws[0].index, CutAt(ws, n - 1), End(ws[n - 1]));
      plain := front + [piece];
    }
  }

  lemma WindowLocated(text: string, all: seq<Weighted>, m: nat)
    requires Located(text, all) && m + WindowSize(all) <= |all|
    ensures InOrder(Window(all, m), |text|)
  {
    var ws := Window(all, m);
    assert forall i :: 0 <= i < |ws| ==> ws[i] == all[m + i];
  }

  /** When lower-casing keeps the length, every window lies in order inside the body. */
  lemma WindowInOrder(lower: string -> string, body: string, terms: seq<string>, m: nat)
    requires |lower(body)| == |body|
    requires var ws := Weigh(lower, terms, lower(body)); m + WindowSize(ws) <= |ws|
    ensures InOrder(Window(Weigh(lower, terms, lower(body)), m), |body|)
  {
    OffsetsLocateWords(lower, terms, lower(body));
    WindowLocated(lower(body), Weigh(lower, terms, lower(body)), m);
  }

  lemma WindowSlice(body: string, ws: seq<Weighted>, teaser: string) returns (pieces: seq<string>, plain: seq<string>)
    requires |ws| > 0 && InOrder(ws, |body|) && WindowTeaser(body, ws, teaser)
    ensures IsSlice(body, ws, teaser, pieces, plain)
  {
    pieces :| Woven(body, ws, true, pieces) && teaser == Join(pieces, "") + "\U{2026}";
    plain := PlainPieces(body, ws, |ws|);
  }

  lemma SliceOf(body: string, all: seq<Weighted>, termFound: bool, teaser: string)
    returns (m: nat, pieces: seq<string>, plain: seq<string>)
    requires |all| > 0 && TeaserOf(body, all, termFound, teaser)
    requires forall m: nat :: m + WindowSize(all) <= |all| ==> InOrder(Window(all, m), |body|)
    ensures Chosen(all, termFound, m) && IsSlice(body, Window(all, m), teaser, pieces, plain)
  {
    m :| Chosen(all, termFound, m) && WindowTeaser(body, Window(all, m), teaser);
    var ws := Window(all, m);
    pieces, plain := WindowSlice(body, ws, teaser);
  }

  /**
    A teaser is the pieces of a window with tags, and an ellipsis. The same pieces without tags are
    the body text from the first to the last word of the window.
   */
  ghost predicate IsSlice(body: string, ws: seq<Weighted>, teaser: string, pieces: seq<string>, plain: seq<string>)
  {
    && |ws| > 0
    && Woven(body, ws, true, pieces) && teaser == Join(pieces, "") + "\U{2026}"
    && Woven(body, ws, false, plain)
    && var first, end := ws[0].index, ws[|ws| - 1].index + |ws[|ws| - 1].word|;
       first <= end <= |body| && Join(plain, "") == body[first..end]
  }

  lemma TeaserIsSlice(lower: string -> string, body: string, terms: seq<string>, teaser: string)
    returns (m: nat, pieces: seq<string>, plain: seq<string>)
    requires |lower(body)| == |body|
    requires var ws := Weigh(lower, terms, lower(body)); |ws| > 0 && TeaserOf(body, ws, HasTerm(ws), teaser)
    ensures var ws := Weigh(lower, terms, lower(body));
            Chosen(ws, HasTerm(ws), m) && IsSlice(body, Window(ws, m), teaser, pieces, plain)
  {
    var ws := Weigh(lower, terms, lower(body));
    forall m: nat | m + WindowSize(ws) <= |ws| ensures InOrder(Window(ws, m), |body|) {
      WindowInOrder(lower, body, terms, m);
    }
    m, pieces, plain := SliceOf(body, ws, HasTerm(ws), teaser);
  }
}
