/**
 * Character classes and the string operations the game session applies to
 * clue answers and guesses: whitespace squashing (`" ".join(s.split())`),
 * `strip`, `lower`, `string.capwords`, the comparable key `clean`, removal
 * of the "(N of)" markers, the blanked answer and the split of an answer
 * into its accepted variants.
 *
 * Text is ASCII throughout: the plugin transliterates with unidecode before
 * `clean`, and Python's Unicode-aware classes (`\w`, `\d`, `str.split`)
 * agree with the ASCII classes below on ASCII input.
 */
module Text {
  import opened Wrappers

  predicate IsDigit(c: char) { '0' <= c <= '9' }
  predicate IsUpper(c: char) { 'A' <= c <= 'Z' }
  predicate IsLower(c: char) { 'a' <= c <= 'z' }
  predicate IsAlnum(c: char) { IsDigit(c) || IsUpper(c) || IsLower(c) }
  /** Python's `\w` on ASCII text. */
  predicate IsWordChar(c: char) { IsAlnum(c) || c == '_' }
  /** ASCII whitespace as `str.split()` and `str.strip()` see it. */
  predicate IsSpace(c: char) { c == ' ' || 9 <= c as int <= 13 || 28 <= c as int <= 31 }
  /** The characters kept by `[^a-zA-Z0-9 ]+` substitution. */
  predicate IsAlnumOrBlank(c: char) { IsAlnum(c) || c == ' ' }
  predicate IsNotBlank(c: char) { c != ' ' }

  function LowerChar(c: char): char {
    if IsUpper(c) then (c as int + 32) as char else c
  }

  function UpperChar(c: char): char {
    if IsLower(c) then (c as int - 32) as char else c
  }

  /** `str.lower()` on ASCII. */
  function Lower(s: string): (r: string)
    ensures |r| == |s|
    ensures forall i {:trigger r[i]} :: 0 <= i < |s| ==> r[i] == LowerChar(s[i])
  {
    if s == [] then [] else [LowerChar(s[0])] + Lower(s[1..])
  }

  // ---------------------------------------------------------------------
  // Filtering characters (`re.sub("[^...]+", "", s)` and `str.replace`)
  // ---------------------------------------------------------------------

  function Filter(p: char -> bool, s: string): (r: string)
    ensures |r| <= |s|
    ensures forall c {:trigger c in r} :: c in r ==> c in s && p(c)
  {
    if s == [] then [] else (if p(s[0]) then [s[0]] else []) + Filter(p, s[1..])
  }

  lemma {:induction false} FilterAppend(p: char -> bool, a: string, b: string)
    ensures Filter(p, a + b) == Filter(p, a) + Filter(p, b)
  {
    if a == [] {
      assert a + b == b;
    } else {
      assert (a + b)[0] == a[0] && (a + b)[1..] == a[1..] + b;
      FilterAppend(p, a[1..], b);
      var head := if p(a[0]) then [a[0]] else [];
      calc {
        Filter(p, a + b);
        head + Filter(p, a[1..] + b);
        head + (Filter(p, a[1..]) + Filter(p, b));
        (head + Filter(p, a[1..])) + Filter(p, b);
      }
    }
  }

  lemma {:induction false} FilterKeepsAll(p: char -> bool, s: string)
    requires forall i :: 0 <= i < |s| ==> p(s[i])
    ensures Filter(p, s) == s
  {
    if s != [] {
      FilterKeepsAll(p, s[1..]);
    }
  }

  /** Dropping non-alphanumerics other than blanks, then the blanks, drops exactly the non-alphanumerics. */
  lemma {:induction false} FilterTwice(s: string)
    ensures Filter(IsNotBlank, Filter(IsAlnumOrBlank, s)) == Filter(IsAlnum, s)
  {
    if s != [] {
      FilterTwice(s[1..]);
      var head := if IsAlnumOrBlank(s[0]) then [s[0]] else [];
      FilterAppend(IsNotBlank, head, Filter(IsAlnumOrBlank, s[1..]));
    }
  }

  // ---------------------------------------------------------------------
  // Whitespace: `str.split()`, `" ".join(...)`, `str.strip()`
  // ---------------------------------------------------------------------

  predicate IsWord(w: string) {
    w != [] && forall i :: 0 <= i < |w| ==> !IsSpace(w[i])
  }

  /** Leading whitespace removed. */
  function DropSpaces(s: string): string {
    if s != [] && IsSpace(s[0]) then DropSpaces(s[1..]) else s
  }

  lemma {:induction false} DropSpacesSpec(s: string)
    ensures var r := DropSpaces(s); (r == [] || !IsSpace(r[0])) && |r| <= |s| && r == s[|s| - |r|..]
  {
    if s != [] && IsSpace(s[0]) {
      DropSpacesSpec(s[1..]);
    }
  }

  /** Trailing whitespace removed. */
  function TrimEnd(s: string): string {
    if s != [] && IsSpace(s[|s| - 1]) then TrimEnd(s[..|s| - 1]) else s
  }

  lemma {:induction false} TrimEndSpec(s: string)
    ensures var r := TrimEnd(s); (r == [] || !IsSpace(r[|r| - 1])) && |r| <= |s| && r == s[..|r|]
  {
    if s != [] && IsSpace(s[|s| - 1]) {
      TrimEndSpec(s[..|s| - 1]);
    }
  }

  /** Length of the leading run of non-whitespace characters. */
  function WordLen(s: string): nat {
    if s == [] || IsSpace(s[0]) then 0 else 1 + WordLen(s[1..])
  }

  lemma {:induction false} WordLenSpec(s: string)
    ensures WordLen(s) <= |s|
    ensures forall i :: 0 <= i < WordLen(s) ==> !IsSpace(s[i])
    ensures WordLen(s) < |s| ==> IsSpace(s[WordLen(s)])
  {
    if s != [] && !IsSpace(s[0]) {
      WordLenSpec(s[1..]);
    }
  }

  /** `str.split()`: the maximal runs of non-whitespace characters, in order. */
  function Words(s: string): seq<string>
    decreases |s|
  {
    var t := DropSpaces(s);
    if t == [] then []
    else
      DropSpacesSpec(s);
      WordLenSpec(t);
      var n := WordLen(t);
      [t[..n]] + Words(t[n..])
  }

  /** Every piece `split()` returns is a non-empty run without whitespace. */
  lemma {:induction false} WordsAreWords(s: string)
    ensures forall k :: 0 <= k < |Words(s)| ==> IsWord(Words(s)[k])
    decreases |s|
  {
    var t := DropSpaces(s);
    if t != [] {
      DropSpacesSpec(s);
      WordLenSpec(t);
      var n := WordLen(t);
      WordsAreWords(t[n..]);
      var ws := Words(s);
      assert ws == [t[..n]] + Words(t[n..]);
      forall k | 0 <= k < |ws|
        ensures IsWord(ws[k])
      {
        if k > 0 {
          assert ws[k] == Words(t[n..])[k - 1];
        }
      }
    }
  }

  /** `" ".join(ws)`. */
  function Join(ws: seq<string>): string {
    if ws == [] then "" else if |ws| == 1 then ws[0] else ws[0] + " " + Join(ws[1..])
  }

  /** No whitespace at either end, and every whitespace character is a single blank between two words. */
  predicate Squashed(s: string) {
    && (s != [] ==> !IsSpace(s[0]) && !IsSpace(s[|s| - 1]))
    && forall i :: 0 <= i < |s| && IsSpace(s[i]) ==> s[i] == ' ' && i + 1 < |s| && !IsSpace(s[i + 1])
  }

  lemma {:induction false} JoinSquashed(ws: seq<string>)
    requires forall k :: 0 <= k < |ws| ==> IsWord(ws[k])
    ensures Squashed(Join(ws))
    ensures ws != [] ==> Join(ws) != []
  {
    if |ws| > 1 {
      JoinSquashed(ws[1..]);
      var w, rest := ws[0], Join(ws[1..]);
      var s := w + " " + rest;
      assert IsWord(w);
      forall i | 0 <= i < |s| && IsSpace(s[i])
        ensures s[i] == ' ' && i + 1 < |s| && !IsSpace(s[i + 1])
      {
        if i > |w| {
          assert s[i] == rest[i - |w| - 1];
          assert s[i + 1] == rest[i - |w|];
        }
      }
    }
  }

  /** Splitting what `" ".join` made of words gives the words back. */
  lemma {:induction false} SplitJoin(ws: seq<string>)
    requires forall k :: 0 <= k < |ws| ==> IsWord(ws[k])
    ensures Words(Join(ws)) == ws
  {
    if ws == [] {
    } else {
      var w := ws[0];
      var rest := Join(ws[1..]);
      var s := if |ws| == 1 then w else w + " " + rest;
      WordLenOf(w, s[|w|..]);
      assert s == w + s[|w|..];
      assert DropSpaces(s) == s;
      assert s[..|w|] == w;
      if |ws| > 1 {
        SplitJoin(ws[1..]);
        JoinSquashed(ws[1..]);
        assert s[|w|..] == [' '] + rest;
        WordsSkipSpace(' ', rest);
      }
    }
  }

  /** A run of non-whitespace followed by the end or by whitespace is the leading word. */
  lemma {:induction false} WordLenOf(w: string, rest: string)
    requires forall i :: 0 <= i < |w| ==> !IsSpace(w[i])
    requires rest == [] || IsSpace(rest[0])
    ensures WordLen(w + rest) == |w|
  {
    if w != [] {
      assert (w + rest)[1..] == w[1..] + rest;
      WordLenOf(w[1..], rest);
    }
  }

  /** A leading whitespace character does not change the words. */
  lemma WordsSkipSpace(c: char, s: string)
    requires IsSpace(c)
    ensures Words([c] + s) == Words(s)
  {
    assert ([c] + s)[1..] == s;
    assert DropSpaces([c] + s) == DropSpaces(s);
  }

  /** `" ".join(s.split())`: whitespace runs become one blank, ends are trimmed. */
  function Squash(s: string): (r: string)
    ensures Squashed(r)
  {
    WordsAreWords(s);
    JoinSquashed(Words(s));
    Join(Words(s))
  }

  /** `str.strip()`. */
  function Strip(s: string): string {
    DropSpaces(TrimEnd(s))
  }

  /** What `strip` returns neither starts nor ends with whitespace. */
  lemma StripEnds(s: string)
    ensures var r := Strip(s); r != [] ==> !IsSpace(r[0]) && !IsSpace(r[|r| - 1])
  {
    var t := TrimEnd(s);
    TrimEndSpec(s);
    DropSpacesSpec(t);
    var r := DropSpaces(t);
    assert r != [] ==> r[|r| - 1] == t[|t| - 1];
  }

  lemma {:induction false} TrimEndSpaces(t: string, ws: string)
    requires t == [] || !IsSpace(t[|t| - 1])
    requires forall i :: 0 <= i < |ws| ==> IsSpace(ws[i])
    ensures TrimEnd(t + ws) == t
    decreases |ws|
  {
    if ws == [] {
      assert t + ws == t;
    } else {
      assert (t + ws)[..|t + ws| - 1] == t + ws[..|ws| - 1];
      TrimEndSpaces(t, ws[..|ws| - 1]);
    }
  }

  /** Stripping a string whose ends are not whitespace, followed by whitespace, gives that string back. */
  lemma StripTrailingSpaces(t: string, ws: string)
    requires t == [] || (!IsSpace(t[0]) && !IsSpace(t[|t| - 1]))
    requires forall i :: 0 <= i < |ws| ==> IsSpace(ws[i])
    ensures Strip(t + ws) == t
  {
    TrimEndSpaces(t, ws);
  }

  /** `str.capitalize()`: first character upper-case, the rest lower-case. */
  function Capitalize(w: string): (r: string)
    ensures |r| == |w|
  {
    if w == [] then [] else [UpperChar(w[0])] + Lower(w[1..])
  }

  /** Capitalizing a word changes the case of letters only, so it leaves a word a word. */
  lemma CapitalizeWord(w: string)
    requires IsWord(w)
    ensures IsWord(Capitalize(w))
  {
    var r := Capitalize(w);
    forall i | 0 <= i < |w|
      ensures !IsSpace(r[i])
    {
      if i > 0 {
        assert r[i] == Lower(w[1..])[i - 1] == LowerChar(w[i]);
      }
    }
  }

  /** `string.capwords(s)`: capitalize every word and rejoin them with single blanks. */
  function Capwords(s: string): string {
    Join(CapitalizeAll(Words(s)))
  }

  /** `capwords` leaves no whitespace at the ends and single blanks between the words. */
  lemma CapwordsSquashed(s: string)
    ensures Squashed(Capwords(s))
  {
    var ws := Words(s);
    WordsAreWords(s);
    forall k | 0 <= k < |ws|
      ensures IsWord(CapitalizeAll(ws)[k])
    {
      CapitalizeWord(ws[k]);
    }
    JoinSquashed(CapitalizeAll(ws));
  }

  /** Every word capitalized, in place. */
  function CapitalizeAll(ws: seq<string>): (r: seq<string>)
    ensures |r| == |ws| && forall k :: 0 <= k < |ws| ==> r[k] == Capitalize(ws[k])
  {
    if ws == [] then [] else [Capitalize(ws[0])] + CapitalizeAll(ws[1..])
  }

  // ---------------------------------------------------------------------
  // clean: the comparable key of an answer or a guess
  // ---------------------------------------------------------------------

  /** The leading words `re.sub("^a |^an |^the |^or ", "", s)` removes, tried in this order. */
  const Articles: seq<string> := ["a ", "an ", "the ", "or "]

  function StripArticle(s: string): (r: string)
    ensures |r| <= |s| && r == s[|s| - |r|..]
  {
    if |s| >= 2 && s[..2] == "a " then s[2..]
    else if |s| >= 3 && s[..3] == "an " then s[3..]
    else if |s| >= 4 && s[..4] == "the " then s[4..]
    else if |s| >= 3 && s[..3] == "or " then s[3..]
    else s
  }

  /**
   * `Game.clean`: for texts longer than two characters, keep letters, digits
   * and blanks, remove one leading article (case-sensitively), then drop the
   * blanks; shorter texts only lose their non-alphanumerics.
   */
  function Clean(t: string): (r: string)
    ensures forall i :: 0 <= i < |r| ==> IsAlnum(r[i])
    ensures |r| <= |t|
  {
    if |t| > 2 then
      var kept := Filter(IsAlnumOrBlank, t);
      var stripped := StripArticle(kept);
      assert forall c :: c in stripped ==> c in kept;
      var r := Filter(IsNotBlank, stripped);
      assert forall i :: 0 <= i < |r| ==> r[i] in r;
      r
    else
      var r := Filter(IsAlnum, t);
      assert forall i :: 0 <= i < |r| ==> r[i] in r;
      r
  }

  /** Exactly one leading article is removed: what follows it keeps only its letters and digits. */
  lemma CleanDropsArticle(art: string, x: string)
    requires art in Articles
    requires |art + x| > 2
    ensures Clean(art + x) == Filter(IsAlnum, x)
  {
    FilterAppend(IsAlnumOrBlank, art, x);
    FilterKeepsAll(IsAlnumOrBlank, art);
    var f := Filter(IsAlnumOrBlank, x);
    assert Filter(IsAlnumOrBlank, art + x) == art + f;
    StripArticleOf(art, f);
    FilterTwice(x);
  }

  lemma StripArticleOf(art: string, f: string)
    requires art in Articles
    ensures StripArticle(art + f) == f
  {
    var s := art + f;
    assert s[..|art|] == art && s[|art|..] == f;
    if art == "a " {
      assert s[..2] == "a ";
    } else if art == "an " {
      assert s[..2][1] == 'n';
      assert s[..3] == "an ";
    } else if art == "the " {
      assert s[..2][0] == 't' && s[..3][0] == 't';
      assert s[..4] == "the ";
    } else {
      assert s[..2][0] == 'o' && s[..3] == "or ";
      if |s| >= 4 {
        assert s[..4][0] == 'o';
      }
    }
  }

  lemma StripArticleNoBlank(s: string)
    requires forall i :: 0 <= i < |s| ==> s[i] != ' '
    ensures StripArticle(s) == s
  {
    if |s| >= 2 {
      assert s[1] != ' ';
      assert s[..2] != "a ";
    }
    if |s| >= 3 {
      assert s[2] != ' ';
      assert s[..3] != "an " && s[..3] != "or ";
    }
    if |s| >= 4 {
      assert s[3] != ' ';
      assert s[..4] != "the ";
    }
  }

  /** A text of at most two letters and digits comes through `clean` whole: "a1" stays "a1". */
  lemma CleanShortKeeps(t: string)
    requires |t| <= 2
    requires forall i :: 0 <= i < |t| ==> IsAlnum(t[i])
    ensures Clean(t) == t
  {
    FilterKeepsAll(IsAlnum, t);
  }

  /** `clean` is idempotent: its result has no blanks, so no article is left to strip. */
  lemma CleanIdempotent(t: string)
    ensures Clean(Clean(t)) == Clean(t)
  {
    var r := Clean(t);
    if |r| > 2 {
      assert forall i :: 0 <= i < |r| ==> IsAlnumOrBlank(r[i]) && IsNotBlank(r[i]);
      FilterKeepsAll(IsAlnumOrBlank, r);
      StripArticleNoBlank(r);
      FilterKeepsAll(IsNotBlank, r);
    } else {
      FilterKeepsAll(IsAlnum, r);
    }
  }

  // ---------------------------------------------------------------------
  // The answer as `newquestion` prepares it
  // ---------------------------------------------------------------------

  /** `re.sub(r"\(\d of\)", "", s)`: remove every "(N of)" marker, scanning left to right. */
  function StripCountMarkers(s: string): (r: string)
    ensures |r| <= |s|
    decreases |s|
  {
    if |s| >= 6 && s[0] == '(' && IsDigit(s[1]) && s[2..6] == " of)" then StripCountMarkers(s[6..])
    else if s == [] then []
    else [s[0]] + StripCountMarkers(s[1..])
  }

  /** A text without an opening parenthesis holds no marker and is left alone. */
  lemma {:induction false} StripCountMarkersNoParen(s: string)
    requires '(' !in s
    ensures StripCountMarkers(s) == s
  {
    if s != [] {
      assert s[0] in s;
      assert forall c :: c in s[1..] ==> c in s;
      StripCountMarkersNoParen(s[1..]);
    }
  }

  /** A marker is removed together with nothing else: `x + "(N of)" + y` becomes the markers-free `x` and `y` joined. */
  lemma {:induction false} StripCountMarkersRemovesMarker(x: string, d: char, y: string)
    requires '(' !in x && IsDigit(d)
    ensures StripCountMarkers(x + ['(', d] + " of)" + y) == x + StripCountMarkers(y)
  {
    var s := x + ['(', d] + " of)" + y;
    if x == [] {
      assert s == ['(', d] + " of)" + y;
      assert s[2..6] == " of)" && s[6..] == y;
    } else {
      assert x[0] in x;
      var rest := x[1..] + ['(', d] + " of)" + y;
      assert s[0] == x[0] && s[1..] == rest;
      assert forall c :: c in x[1..] ==> c in x;
      StripCountMarkersRemovesMarker(x[1..], d, y);
      calc {
        StripCountMarkers(s);
        [x[0]] + StripCountMarkers(rest);
        [x[0]] + (x[1..] + StripCountMarkers(y));
        { assert [x[0]] + x[1..] == x; }
        x + StripCountMarkers(y);
      }
    }
  }

  /** `re.sub(r"\w", blankChar, a)`: every word character hidden, everything else shown. */
  function Blank(a: string, blankChar: char): (r: string)
    ensures |r| == |a|
    ensures forall i {:trigger r[i]} :: 0 <= i < |a| ==> r[i] == (if IsWordChar(a[i]) then blankChar else a[i])
  {
    if a == [] then [] else [if IsWordChar(a[0]) then blankChar else a[0]] + Blank(a[1..], blankChar)
  }

  /** Number of letters and digits: `len(re.sub("[^a-zA-Z0-9]+", "", a))`. */
  function AlnumCount(a: string): (n: nat)
    ensures n <= |a|
  {
    |Filter(IsAlnum, a)|
  }

  function LastIndexOf(s: string, c: char): (r: Option<nat>)
    ensures r.None? ==> c !in s
    ensures r.Some? ==> r.value < |s| && s[r.value] == c && c !in s[r.value + 1..]
  {
    if s == [] then None
    else if s[|s| - 1] == c then Some(|s| - 1)
    else
      var r := LastIndexOf(s[..|s| - 1], c);
      assert s == s[..|s| - 1] + [s[|s| - 1]];
      assert r.Some? ==> s[r.value + 1..] == s[..|s| - 1][r.value + 1..] + [s[|s| - 1]];
      r
  }

  /**
   * The accepted variants of an answer. Without an opening parenthesis the
   * answer alone; otherwise `re.match(r"(.*)\((.*)\)(.*)", a)` splits it
   * greedily into before/inside/after and the variants are the answer,
   * before+after and inside. None when that match fails (an opening
   * parenthesis with no closing one after it), where the source raises.
   */
  function Variants(a: string): (r: Option<seq<string>>)
    ensures r.Some? ==> (|r.value| == 1 || |r.value| == 3) && r.value[0] == a
    ensures '(' !in a ==> r == Some([a])
  {
    if '(' !in a then Some([a])
    else match LastIndexOf(a, ')')
      case None => None
      case Some(q) =>
        match LastIndexOf(a[..q], '(')
        case None => None
        case Some(p) => Some([a, a[..p] + a[q + 1..], a[p + 1..q]])
  }

  /** The last occurrence is the one no later character repeats. */
  lemma {:induction false} LastIndexOfAt(s: string, c: char, i: nat)
    requires i < |s| && s[i] == c && c !in s[i + 1..]
    ensures LastIndexOf(s, c) == Some(i)
  {
    if i < |s| - 1 {
      var init := s[..|s| - 1];
      assert s[i + 1..] == init[i + 1..] + [s[|s| - 1]];
      assert init[i] == c;
      LastIndexOfAt(init, c, i);
    }
  }

  /** With no ")" in the tail, the last ")" is the one before it. */
  lemma LastCloseAt(pre: string, z: string)
    requires ')' !in z
    ensures LastIndexOf(pre + ")" + z, ')') == Some(|pre|)
  {
    var a := pre + ")" + z;
    assert a[|pre| + 1..] == z;
    LastIndexOfAt(a, ')', |pre|);
  }

  /** With no "(" in the inside, the last "(" is the one before it. */
  lemma LastOpenAt(x: string, y: string)
    requires '(' !in y
    ensures LastIndexOf(x + "(" + y, '(') == Some(|x|)
  {
    var a := x + "(" + y;
    assert a[|x| + 1..] == y;
    LastIndexOfAt(a, '(', |x|);
  }

  /** The greedy split: the inside holds no "(" and the tail no ")", and then the split is the one the regular expression finds. */
  lemma VariantsSplit(x: string, y: string, z: string)
    requires '(' !in y && ')' !in z
    ensures Variants(x + "(" + y + ")" + z) == Some([x + "(" + y + ")" + z, x + z, y])
  {
    var pre := x + "(" + y;
    var a := pre + ")" + z;
    assert a == x + "(" + y + ")" + z;
    assert a[|x|] == '(' && a[|x|] in a;
    LastCloseAt(pre, z);
    assert a[..|pre|] == pre;
    LastOpenAt(x, y);
    assert a[..|x|] == x && a[|x| + 1..|pre|] == y && a[|pre| + 1..] == z;
  }

  /** The split fails exactly when no ")" follows any "(". */
  lemma VariantsFailure(a: string)
    ensures Variants(a).None? <==> ('(' in a && forall i, j :: 0 <= i < j < |a| && a[i] == '(' ==> a[j] != ')')
  {
    if '(' in a {
      match LastIndexOf(a, ')') {
        case None =>
          forall i, j | 0 <= i < j < |a| && a[i] == '(' ensures a[j] != ')' {
            assert a[j] in a;
          }
        case Some(q) =>
          match LastIndexOf(a[..q], '(') {
            case None =>
              forall i, j | 0 <= i < j < |a| && a[i] == '(' ensures a[j] != ')' {
                if j > q {
                  assert a[j] in a[q + 1..];
                }
              }
            case Some(p) =>
              assert a[..q][p] == a[p];
          }
      }
    }
  }
}
