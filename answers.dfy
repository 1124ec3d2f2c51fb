/**
 * Deciding whether a guess answers the current clue. Each variant of the
 * answer is tried in turn; the guess is right if, after squashing whitespace
 * and lowering case, it equals the variant, or equals it after `clean`, or,
 * with fuzzy matching switched on, the caller's similarity test accepts the
 * two cleaned texts.
 */
module Answers {
  import opened Text

  /** `" ".join(s.split()).strip().lower()`. */
  function Key(s: string): (r: string)
    ensures Squashed(r)
  {
    LowerSquashed(Squash(s));
    Lower(Squash(s))
  }

  /** Lowering case keeps a squashed text squashed: blanks stay blanks and nothing else becomes one. */
  lemma LowerSquashed(s: string)
    requires Squashed(s)
    ensures Squashed(Lower(s))
  {
    var r := Lower(s);
    forall i | 0 <= i < |s|
      ensures IsSpace(r[i]) <==> IsSpace(s[i])
      ensures r[i] == ' ' <==> s[i] == ' '
    {
      assert r[i] == LowerChar(s[i]);
    }
  }

  /**
   * One pass of the loop over the variants. `fuzzy` says the configured
   * flexibility lies strictly between 0.5 and 1; `similar` stands for the
   * string-distance tests that are then applied to the cleaned texts.
   */
  predicate Accepts(variant: string, guess: string, fuzzy: bool, similar: (string, string) -> bool) {
    var a := Key(variant);
    var g := Key(guess);
    g == a || Clean(g) == Clean(a) || (fuzzy && similar(Clean(g), Clean(a)))
  }

  /**
   * The matching loop of `answer`: variants are tried in order and the
   * first accepting one ends the search.
   */
  method Matches(variants: seq<string>, guess: string, fuzzy: bool, similar: (string, string) -> bool)
    returns (correct: bool)
    ensures correct <==> exists k :: 0 <= k < |variants| && Accepts(variants[k], guess, fuzzy, similar)
  {
    correct := false;
    var k := 0;
    while k < |variants|
      invariant 0 <= k <= |variants|
      invariant forall j :: 0 <= j < k ==> !Accepts(variants[j], guess, fuzzy, similar)
    {
      var ans := Key(variants[k]);
      var g := Key(guess);
      if g == ans {
        correct := true;
        break;
      }
      var cleanAns := Clean(ans);
      var cleanGuess := Clean(g);
      if cleanGuess == cleanAns {
        correct := true;
        break;
      }
      if fuzzy && similar(cleanGuess, cleanAns) {
        correct := true;
        break;
      }
      k := k + 1;
    }
  }

  /** A one-word key of more than two characters loses nothing to `clean` except non-alphanumerics. */
  lemma CleanWord(w: string)
    requires ' ' !in w && |w| > 2
    ensures Clean(w) == Filter(IsAlnum, w)
  {
    var kept := Filter(IsAlnumOrBlank, w);
    assert ' ' !in kept;
    assert forall i :: 0 <= i < |kept| ==> kept[i] in kept;
    StripArticleNoBlank(kept);
    FilterTwice(w);
  }

  /**
   * A leading article in the guess does not matter: when the guess's key is
   * an article followed by the variant's one-word key of more than two
   * characters, the guess is accepted.
   */
  lemma ArticleIgnored(variant: string, guess: string, art: string, fuzzy: bool, similar: (string, string) -> bool)
    requires art in Articles
    requires ' ' !in Key(variant) && |Key(variant)| > 2
    requires Key(guess) == art + Key(variant)
    ensures Accepts(variant, guess, fuzzy, similar)
  {
    var a := Key(variant);
    CleanDropsArticle(art, a);
    CleanWord(a);
  }

  /** Punctuation does not matter: keys that agree on their letters and digits are accepted, when both are long enough for `clean` to drop an article. */
  lemma PunctuationIgnored(variant: string, guess: string, fuzzy: bool, similar: (string, string) -> bool)
    requires ' ' !in Key(variant) && |Key(variant)| > 2
    requires ' ' !in Key(guess) && |Key(guess)| > 2
    requires Filter(IsAlnum, Key(guess)) == Filter(IsAlnum, Key(variant))
    ensures Accepts(variant, guess, fuzzy, similar)
  {
    CleanWord(Key(variant));
    CleanWord(Key(guess));
  }
}
