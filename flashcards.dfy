/**
 * Flashcard generation, `generate_flashcards` in translator.py: both texts are
 * split on whitespace, the shorter token list is padded with empty strings,
 * and the tokens are paired by position, dropping every pair with an empty side.
 */
module Flashcards {
  import opened Text

  /** One card as `generate_flashcards` builds it (a dict with these four keys). */
  datatype Flashcard = Flashcard(front: string, back: string, sourceLang: string, targetLang: string)

  function Min(a: int, b: int): int {
    if a <= b then a else b
  }

  function Max(a: int, b: int): int {
    if a >= b then a else b
  }

  /** `words.extend([""] * (n - len(words)))`: a negative repeat count adds nothing. */
  function Padded(words: seq<string>, n: nat): (r: seq<string>)
    ensures |r| == Max(n, |words|)
    ensures r[..|words|] == words
    ensures forall i :: |words| <= i < |r| ==> r[i] == ""
  {
    if n > |words| then words + seq(n - |words|, _ => "") else words
  }

  /** Reference definition: the cards made from the first `min(|src|, |dst|)`
      positions, card `i` pairing `src[i]` with `dst[i]`. */
  function Positional(src: seq<string>, dst: seq<string>, sourceLang: string, targetLang: string): (cards: seq<Flashcard>)
    ensures |cards| == Min(|src|, |dst|)
    ensures forall i :: 0 <= i < |cards| ==> cards[i] == Flashcard(src[i], dst[i], sourceLang, targetLang)
  {
    if src == [] || dst == [] then []
    else [Flashcard(src[0], dst[0], sourceLang, targetLang)] + Positional(src[1..], dst[1..], sourceLang, targetLang)
  }

  /** `generate_flashcards(text, translated, source_lang, target_lang)`.
      Since `split` never yields an empty token, the padding only ever meets
      the filter, and the result is exactly the positional pairing. */
  method GenerateFlashcards(text: string, translated: string, sourceLang: string, targetLang: string)
    returns (cards: seq<Flashcard>)
    ensures cards == Positional(Split(text), Split(translated), sourceLang, targetLang)
    ensures |cards| == Min(|Split(text)|, |Split(translated)|)
    ensures forall c :: c in cards ==>
      IsWord(c.front) && IsWord(c.back) && c.sourceLang == sourceLang && c.targetLang == targetLang
  {
    var sourceWords := Split(text);
    var translatedWords := Split(translated);
    ghost var src, dst := sourceWords, translatedWords;
    var maxLength := Max(|sourceWords|, |translatedWords|);
    sourceWords := Padded(sourceWords, maxLength);
    translatedWords := Padded(translatedWords, maxLength);

    cards := [];
    var i := 0;
    while i < maxLength
      invariant 0 <= i <= maxLength
      invariant |cards| == Min(i, Min(|src|, |dst|))
      invariant forall k :: 0 <= k < |cards| ==> cards[k] == Flashcard(src[k], dst[k], sourceLang, targetLang)
    {
      if i < |src| {
        assert sourceWords[i] == sourceWords[..|src|][i] == src[i];
        assert src[i] in src;
      }
      if i < |dst| {
        assert translatedWords[i] == translatedWords[..|dst|][i] == dst[i];
        assert dst[i] in dst;
      }
      if sourceWords[i] != "" && translatedWords[i] != "" {
        cards := cards + [Flashcard(sourceWords[i], translatedWords[i], sourceLang, targetLang)];
      }
      i := i + 1;
    }
  }

  /** Every card built from whitespace-split texts has a non-empty front and
      back, and carries the caller's language labels. */
  lemma PositionalCardsWellFormed(text: string, translated: string, sourceLang: string, targetLang: string)
    ensures forall c :: c in Positional(Split(text), Split(translated), sourceLang, targetLang) ==>
      IsWord(c.front) && IsWord(c.back) && c.sourceLang == sourceLang && c.targetLang == targetLang
  {
    var src, dst := Split(text), Split(translated);
    var cards := Positional(src, dst, sourceLang, targetLang);
    forall c | c in cards
      ensures IsWord(c.front) && IsWord(c.back) && c.sourceLang == sourceLang && c.targetLang == targetLang
    {
      var i :| 0 <= i < |cards| && cards[i] == c;
      assert src[i] in src && dst[i] in dst;
    }
  }

  /** Two words against two words give two cards, paired in order. */
  lemma TwoWordsEach(a: string, b: string, x: string, y: string, sourceLang: string, targetLang: string)
    requires IsWord(a) && IsWord(b) && IsWord(x) && IsWord(y)
    ensures Positional(Split(a + " " + b), Split(x + " " + y), sourceLang, targetLang) ==
      [Flashcard(a, x, sourceLang, targetLang), Flashcard(b, y, sourceLang, targetLang)]
  {
    SplitTwoWords(a, b);
    SplitTwoWords(x, y);
  }

  /** Three words against two: the unmatched third word makes no card. */
  lemma ThreeWordsAgainstTwo(a: string, b: string, c: string, x: string, y: string, sourceLang: string, targetLang: string)
    requires IsWord(a) && IsWord(b) && IsWord(c) && IsWord(x) && IsWord(y)
    ensures Positional(Split(a + " " + b + " " + c), Split(x + " " + y), sourceLang, targetLang) ==
      [Flashcard(a, x, sourceLang, targetLang), Flashcard(b, y, sourceLang, targetLang)]
  {
    SplitTwoWords(x, y);
    assert [a, b, c][1..] == [b, c] && [b, c][1..] == [c];
    assert JoinWords([b, c]) == b + " " + c;
    assert JoinWords([a, b, c]) == a + " " + (b + " " + c);
    assert a + " " + b + " " + c == a + " " + (b + " " + c);
    SplitJoin([a, b, c]);
  }

  lemma SplitTwoWords(a: string, b: string)
    requires IsWord(a) && IsWord(b)
    ensures Split(a + " " + b) == [a, b]
  {
    assert JoinWords([a, b]) == a + " " + b;
    SplitJoin([a, b]);
  }
}
