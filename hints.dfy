/**
 * The hint: the blanked answer with some hidden positions revealed. Each
 * revealing hint pops random candidate positions from the list of positions
 * not yet tried and shows the answer's character wherever the hint still
 * holds the blank character.
 */
module Hints {
  import opened Text
  import opened Clues

  /** Every change from `before` to `after` shows the answer's character where a blank was. */
  predicate Reveals(before: string, after: string, ans: string, blankChar: char)
    requires |before| == |after| == |ans|
  {
    forall k :: 0 <= k < |before| ==>
      after[k] == before[k] || (before[k] == blankChar && after[k] == ans[k])
  }

  /** Revealing twice is revealing once. */
  lemma RevealsTrans(a: string, b: string, c: string, ans: string, blankChar: char)
    requires |a| == |b| == |c| == |ans|
    requires Reveals(a, b, ans, blankChar) && Reveals(b, c, ans, blankChar)
    ensures Reveals(a, c, ans, blankChar)
  {
    forall k | 0 <= k < |a|
      ensures c[k] == a[k] || (a[k] == blankChar && c[k] == ans[k])
    {
      if b[k] != a[k] {
        assert a[k] == blankChar && b[k] == ans[k];
      }
    }
  }

  /**
   * A hint reached from the blanked answer only ever shows the answer's own
   * characters: each position holds the answer's character, or the blank
   * character where the answer has a word character.
   */
  lemma HintShowsAnswer(ans: string, hint: string, blankChar: char)
    requires |hint| == |ans|
    requires Reveals(Blank(ans, blankChar), hint, ans, blankChar)
    ensures forall k :: 0 <= k < |hint| ==>
      hint[k] == ans[k] || (hint[k] == blankChar && IsWordChar(ans[k]))
  {
    var b := Blank(ans, blankChar);
    forall k | 0 <= k < |hint|
      ensures hint[k] == ans[k] || (hint[k] == blankChar && IsWordChar(ans[k]))
    {
      assert b[k] == (if IsWordChar(ans[k]) then blankChar else ans[k]);
    }
  }

  /** Number of positions at which the two texts differ. */
  function Changed(before: string, after: string): nat
    requires |before| == |after|
  {
    if before == [] then 0
    else (if before[0] != after[0] then 1 else 0) + Changed(before[1..], after[1..])
  }

  lemma {:induction false} ChangedNone(s: string)
    ensures Changed(s, s) == 0
  {
    if s != [] {
      ChangedNone(s[1..]);
    }
  }

  /** Writing one position changes at most one more position. */
  lemma {:induction false} ChangedUpdate(before: string, after: string, j: nat, c: char)
    requires |before| == |after| && j < |after|
    ensures Changed(before, after[j := c]) <= Changed(before, after) + 1
  {
    if j > 0 {
      assert after[j := c][1..] == after[1..][j - 1 := c];
      ChangedUpdate(before[1..], after[1..], j - 1, c);
    } else {
      assert after[j := c][1..] == after[1..];
    }
  }

  /** The candidate list holds positions of the hint. */
  predicate Candidates(revealed: seq<int>, len: nat) {
    forall k :: 0 <= k < |revealed| ==> 0 <= revealed[k] < len
  }

  /**
   * `revealed.pop(random.randint(0, len(revealed)) - 1)`: the draw picks one
   * of len + 1 values, the first of which (-1) pops the last candidate.
   */
  function PopIndex(len: nat, draw: nat): (r: nat)
    requires len > 0
    ensures r < len
    ensures draw % (len + 1) == 0 ==> r == len - 1
    ensures draw % (len + 1) > 0 ==> r == draw % (len + 1) - 1
  {
    var x := draw % (len + 1) - 1;
    if x < 0 then len - 1 else x
  }

  /** Popping a candidate leaves the others, each as often as before. */
  lemma PopKeeps(revealed: seq<int>, at: nat, len: nat)
    requires at < |revealed| && Candidates(revealed, len)
    ensures Candidates(revealed[..at] + revealed[at + 1..], len)
    ensures multiset(revealed[..at] + revealed[at + 1..]) + multiset{revealed[at]} == multiset(revealed)
  {
    assert revealed == revealed[..at] + [revealed[at]] + revealed[at + 1..];
    var r := revealed[..at] + revealed[at + 1..];
    forall k | 0 <= k < |r|
      ensures 0 <= r[k] < len
    {
      if k < at {
        assert r[k] == revealed[k];
      } else {
        assert r[k] == revealed[k + 1];
      }
    }
  }

  /**
   * The reveal loop of `hint`. While fewer than `divider` blanks were shown
   * and more than one candidate is left, a candidate is popped; if the hint
   * holds the blank character there, the answer's character replaces it.
   * The `t`-th pop uses the `t`-th draw.
   */
  method Reveal(show0: string, revealed0: seq<int>, ans: string, blankChar: char, divider: int, draws: seq<nat>)
    returns (show: string, revealed: seq<int>)
    requires |show0| == |ans| && Candidates(revealed0, |show0|)
    ensures |show| == |show0| && Reveals(show0, show, ans, blankChar)
    ensures Changed(show0, show) <= (if divider < 0 then 0 else divider)
    ensures Candidates(revealed, |show|) && multiset(revealed) <= multiset(revealed0)
    ensures |revealed0| >= 1 ==> |revealed| >= 1
    ensures forall k :: 0 <= k < |show| && show[k] != show0[k] ==>
      multiset(revealed)[k] < multiset(revealed0)[k]
  {
    show, revealed := show0, revealed0;
    ChangedNone(show0);
    var i := 0;
    var t := 0;
    while i < divider && |revealed| > 1
      invariant |show| == |show0| && Reveals(show0, show, ans, blankChar)
      invariant 0 <= i <= (if divider < 0 then 0 else divider)
      invariant Changed(show0, show) <= i
      invariant Candidates(revealed, |show|) && multiset(revealed) <= multiset(revealed0)
      invariant |revealed0| >= 1 ==> |revealed| >= 1
      invariant forall k :: 0 <= k < |show| && show[k] != show0[k] ==>
        multiset(revealed)[k] < multiset(revealed0)[k]
      decreases |revealed|
    {
      var at := PopIndex(|revealed|, Draw(draws, t));
      var rand := revealed[at];
      PopKeeps(revealed, at, |show|);
      revealed := revealed[..at] + revealed[at + 1..];
      if show[rand] == blankChar {
        ChangedUpdate(show0, show, rand, ans[rand]);
        show := show[rand := ans[rand]];
        i := i + 1;
      }
      t := t + 1;
    }
  }

  /** `list(range(len(show)))`: every position is a candidate once. */
  function Positions(n: nat): (r: seq<int>)
    ensures |r| == n && Candidates(r, n)
    ensures forall k :: 0 <= k < n ==> r[k] == k
  {
    if n == 0 then [] else Positions(n - 1) + [n - 1]
  }
}
