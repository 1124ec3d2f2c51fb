/**
 * The per-channel score tables and the two plain-text files of a channel.
 *
 * `scores` and `roundscores` are case-insensitive dictionaries: lookups fold
 * the name to lower case, an update keeps the entry's place in insertion
 * order and stores the name as last spelled. A table is modelled as the
 * sequence of its (name, score) entries in that order.
 */
module Scores {
  import opened Wrappers
  import opened Text
  import opened Numbers

  type Entry = (string, int)
  type Table = seq<Entry>

  /** No two entries share a name up to case. */
  predicate DistinctKeys(t: Table) {
    forall i, j :: 0 <= i < j < |t| ==> Lower(t[i].0) != Lower(t[j].0)
  }

  /** Position of the entry whose name equals `name` up to case. */
  function Find(t: Table, name: string): (r: Option<nat>)
    ensures r.Some? ==> r.value < |t| && Lower(t[r.value].0) == Lower(name)
    ensures r.Some? ==> forall k :: 0 <= k < r.value ==> Lower(t[k].0) != Lower(name)
    ensures r.None? ==> forall k :: 0 <= k < |t| ==> Lower(t[k].0) != Lower(name)
  {
    if t == [] then None
    else if Lower(t[0].0) == Lower(name) then Some(0)
    else match Find(t[1..], name)
      case None => None
      case Some(i) => Some(i + 1)
  }

  function Get(t: Table, name: string): Option<int> {
    match Find(t, name)
    case None => None
    case Some(i) => Some(t[i].1)
  }

  /** `t[name] = v`: overwrite the entry in place, or append a new one. */
  function Put(t: Table, name: string, v: int): (r: Table)
    ensures Get(r, name) == Some(v)
    ensures |r| == |t| + (if Find(t, name).None? then 1 else 0)
  {
    match Find(t, name)
    case Some(i) =>
      var r := t[i := (name, v)];
      assert Find(r, name) == Some(i) by {
        FindFirst(r, name, i);
      }
      r
    case None =>
      var r := t + [(name, v)];
      assert Find(r, name) == Some(|t|) by {
        FindFirst(r, name, |t|);
      }
      r
  }

  /** Putting keeps every existing key where it was, so a table without repeated names keeps none. */
  lemma PutKeys(t: Table, name: string, v: int)
    ensures forall k :: 0 <= k < |t| ==> Lower(Put(t, name, v)[k].0) == Lower(t[k].0)
    ensures DistinctKeys(t) ==> DistinctKeys(Put(t, name, v))
  {
  }

  lemma FindFirst(t: Table, name: string, i: nat)
    requires i < |t| && Lower(t[i].0) == Lower(name)
    requires forall k :: 0 <= k < i ==> Lower(t[k].0) != Lower(name)
    ensures Find(t, name) == Some(i)
  {
    var r := Find(t, name);
    assert r.Some?;
    assert r.value == i;
  }

  lemma FindAbsent(t: Table, name: string)
    requires forall k :: 0 <= k < |t| ==> Lower(t[k].0) != Lower(name)
    ensures Find(t, name) == None
  {
  }

  /** Putting one name leaves every other name's score as it was. */
  lemma PutOther(t: Table, name: string, v: int, other: string)
    requires Lower(other) != Lower(name)
    ensures Get(Put(t, name, v), other) == Get(t, other)
  {
    var r := Put(t, name, v);
    PutKeys(t, name, v);
    match Find(t, other) {
      case None =>
        FindAbsent(r, other);
      case Some(j) =>
        FindFirst(r, other, j);
    }
  }

  function ScoreOf(t: Table, name: string): int {
    match Get(t, name) case None => 0 case Some(s) => s
  }

  /** `if name not in t: t[name] = 0` then `t[name] += p`: the player gains exactly `p`, from 0 when new. */
  function Credit(t: Table, name: string, p: int): (r: Table)
    ensures ScoreOf(r, name) == ScoreOf(t, name) + p
  {
    var r := Put(t, name, ScoreOf(t, name) + p);
    assert Get(r, name) == Some(ScoreOf(t, name) + p);
    r
  }

  /** Putting a name the score file can hold keeps every name writable. */
  lemma PutNames(t: Table, name: string, v: int)
    requires NamesOk(t) && NameOk(name)
    ensures NamesOk(Put(t, name, v))
  {
    match Find(t, name) {
      case Some(i) =>
        assert Put(t, name, v) == t[i := (name, v)];
      case None =>
        assert Put(t, name, v) == t + [(name, v)];
    }
  }

  /** Crediting keeps the table free of repeated names and keeps every name writable. */
  lemma CreditKeeps(t: Table, name: string, p: int)
    requires DistinctKeys(t) && NamesOk(t) && NameOk(name)
    ensures DistinctKeys(Credit(t, name, p)) && NamesOk(Credit(t, name, p))
  {
    PutKeys(t, name, ScoreOf(t, name) + p);
    PutNames(t, name, ScoreOf(t, name) + p);
  }

  /** Crediting one player changes no other player's score. */
  lemma CreditOthers(t: Table, name: string, p: int, other: string)
    requires Lower(other) != Lower(name)
    ensures Get(Credit(t, name, p), other) == Get(t, other)
  {
    var v := ScoreOf(t, name) + p;
    assert Credit(t, name, p) == Put(t, name, v);
    PutOther(t, name, v, other);
  }

  // ---------------------------------------------------------------------
  // Top finishers: `sorted(..., key=score, reverse=True)[:3]`
  // ---------------------------------------------------------------------

  predicate SortedDesc(t: Table) {
    forall i, j :: 0 <= i < j < |t| ==> t[i].1 >= t[j].1
  }

  /** The entries with score v, in their relative order. */
  function WithScore(t: Table, v: int): Table {
    if t == [] then [] else (if t[0].1 == v then [t[0]] else []) + WithScore(t[1..], v)
  }

  lemma {:induction false} WithScoreAppend(a: Table, b: Table, v: int)
    ensures WithScore(a + b, v) == WithScore(a, v) + WithScore(b, v)
  {
    if a == [] {
      assert a + b == b;
    } else {
      assert (a + b)[0] == a[0] && (a + b)[1..] == a[1..] + b;
      WithScoreAppend(a[1..], b, v);
      var head := if a[0].1 == v then [a[0]] else [];
      calc {
        WithScore(a + b, v);
        head + WithScore(a[1..] + b, v);
        head + (WithScore(a[1..], v) + WithScore(b, v));
        (head + WithScore(a[1..], v)) + WithScore(b, v);
      }
    }
  }

  /** Insert e after every entry scoring at least as much: the stable step of a descending sort. */
  function Insert(e: Entry, t: Table): (r: Table)
    ensures |r| == |t| + 1
  {
    if t == [] || t[0].1 < e.1 then [e] + t else [t[0]] + Insert(e, t[1..])
  }

  lemma {:induction false} InsertPerm(e: Entry, t: Table)
    ensures multiset(Insert(e, t)) == multiset(t) + multiset{e}
  {
    if t != [] && t[0].1 >= e.1 {
      InsertPerm(e, t[1..]);
      assert t == [t[0]] + t[1..];
    }
  }

  lemma {:induction false} InsertSorted(e: Entry, t: Table)
    requires SortedDesc(t)
    ensures SortedDesc(Insert(e, t))
  {
    if t != [] && t[0].1 >= e.1 {
      var rest := Insert(e, t[1..]);
      InsertSorted(e, t[1..]);
      InsertPerm(e, t[1..]);
      forall k | 0 <= k < |rest|
        ensures t[0].1 >= rest[k].1
      {
        assert rest[k] in multiset(rest);
        if rest[k] != e {
          assert rest[k] in multiset(t[1..]);
          var j :| 0 <= j < |t[1..]| && t[1..][j] == rest[k];
          assert t[j + 1] == rest[k];
        }
      }
      assert Insert(e, t) == [t[0]] + rest;
    }
  }

  lemma WithScoreCons(e: Entry, t: Table, v: int)
    ensures WithScore([e] + t, v) == (if e.1 == v then [e] else []) + WithScore(t, v)
  {
    assert ([e] + t)[1..] == t;
  }

  lemma {:induction false} InsertWithScore(e: Entry, t: Table, v: int)
    requires SortedDesc(t)
    ensures WithScore(Insert(e, t), v) == WithScore(t, v) + (if e.1 == v then [e] else [])
  {
    if t == [] {
      WithScoreCons(e, t, v);
    } else if t[0].1 < e.1 {
      assert Insert(e, t) == [e] + t;
      WithScoreCons(e, t, v);
      if e.1 == v {
        // every entry of t scores at most t[0].1, below e's score
        WithScoreBelow(t, e.1);
      }
    } else {
      var rest := Insert(e, t[1..]);
      assert Insert(e, t) == [t[0]] + rest;
      WithScoreCons(t[0], rest, v);
      assert SortedDesc(t[1..]);
      InsertWithScore(e, t[1..], v);
      assert t == [t[0]] + t[1..];
      WithScoreCons(t[0], t[1..], v);
    }
  }

  lemma {:induction false} WithScoreBelow(t: Table, v: int)
    requires SortedDesc(t) && (t == [] || t[0].1 < v)
    ensures WithScore(t, v) == []
  {
    if t != [] {
      assert SortedDesc(t[1..]);
      WithScoreBelow(t[1..], v);
    }
  }

  /** Python's stable sort by score, descending (`reverse=True` keeps ties in order). */
  function SortDesc(t: Table): (r: Table)
    ensures |r| == |t|
    ensures SortedDesc(r)
  {
    if t == [] then []
    else
      var s := SortDesc(t[..|t| - 1]);
      InsertSorted(t[|t| - 1], s);
      Insert(t[|t| - 1], s)
  }

  /** The sort only reorders: the same entries, each as often. */
  lemma {:induction false} SortDescPerm(t: Table)
    ensures multiset(SortDesc(t)) == multiset(t)
  {
    if t != [] {
      var init, last := t[..|t| - 1], t[|t| - 1];
      var s := SortDesc(init);
      assert SortDesc(t) == Insert(last, s);
      SortDescPerm(init);
      InsertPerm(last, s);
      assert t == init + [last];
      assert multiset(t) == multiset(init) + multiset{last};
    }
  }

  /** Stability: for every score, the entries with that score keep their insertion order. */
  lemma {:induction false} SortDescStable(t: Table, v: int)
    ensures WithScore(SortDesc(t), v) == WithScore(t, v)
  {
    if t != [] {
      var init, last := t[..|t| - 1], t[|t| - 1];
      var s := SortDesc(init);
      assert SortDesc(t) == Insert(last, s);
      SortDescStable(init, v);
      InsertWithScore(last, s, v);
      assert t == init + [last];
      WithScoreAppend(init, [last], v);
      WithScoreCons(last, [], v);
      assert [last] + [] == [last];
    }
  }

  /** The at most three best round scores `stop` announces, best first, ties in insertion order. */
  function TopFinishers(t: Table): (r: Table)
    ensures |r| == if |t| < 3 then |t| else 3
    ensures SortedDesc(r)
  {
    SortDesc(t)[..if |t| < 3 then |t| else 3]
  }

  /** Every finisher is a player of the round, and nobody left off the podium outscores one on it. */
  lemma TopFinishersBest(t: Table)
    ensures forall k :: 0 <= k < |TopFinishers(t)| ==> TopFinishers(t)[k] in t
    ensures forall e :: e in t && e !in TopFinishers(t) ==>
      forall k :: 0 <= k < |TopFinishers(t)| ==> e.1 <= TopFinishers(t)[k].1
  {
    var s := SortDesc(t);
    var r := TopFinishers(t);
    SortDescPerm(t);
    forall k | 0 <= k < |r|
      ensures r[k] in t
    {
      assert r[k] == s[k];
      assert s[k] in multiset(s);
    }
    forall e | e in t && e !in r
      ensures forall k :: 0 <= k < |r| ==> e.1 <= r[k].1
    {
      assert e in multiset(s);
      var j :| 0 <= j < |s| && s[j] == e;
      assert j >= |r|;
      forall k | 0 <= k < |r|
        ensures e.1 <= r[k].1
      {
        assert r[k] == s[k];
      }
    }
  }

  // ---------------------------------------------------------------------
  // The score file: one "name score\n" line per entry
  // ---------------------------------------------------------------------

  /** A player name the score file can hold: `split(" ")` and the line structure keep it whole. */
  predicate NameOk(name: string) {
    ' ' !in name && '\n' !in name
  }

  predicate NamesOk(t: Table) {
    forall k :: 0 <= k < |t| ==> NameOk(t[k].0)
  }

  function IndexOf(s: string, c: char): (r: Option<nat>)
    ensures r.Some? ==> r.value < |s| && s[r.value] == c && c !in s[..r.value]
    ensures r.None? ==> c !in s
  {
    if s == [] then None
    else if s[0] == c then Some(0)
    else match IndexOf(s[1..], c)
      case None => None
      case Some(i) =>
        assert s[..i + 1] == [s[0]] + s[1..][..i];
        Some(i + 1)
  }

  lemma {:induction false} IndexOfAt(s: string, c: char, i: nat)
    requires i < |s| && s[i] == c
    requires forall k :: 0 <= k < i ==> s[k] != c
    ensures IndexOf(s, c) == Some(i)
  {
    if i > 0 {
      IndexOfAt(s[1..], c, i - 1);
    }
  }

  /** `line.split(sep)`. */
  function Split(s: string, sep: char): (r: seq<string>)
    ensures |r| >= 1
    decreases |s|
  {
    match IndexOf(s, sep)
    case None => [s]
    case Some(i) => [s[..i]] + Split(s[i + 1..], sep)
  }

  /** `readlines()`: the lines of a text, each keeping its line break (the last one may lack it). */
  function Lines(text: string): (r: seq<string>)
    decreases |text|
  {
    match IndexOf(text, '\n')
    case None => if text == [] then [] else [text]
    case Some(i) => [text[..i + 1]] + Lines(text[i + 1..])
  }

  /** A line as `write` produces it: a single line break, at its end. */
  predicate IsLine(line: string) {
    line != [] && line[|line| - 1] == '\n' && forall k :: 0 <= k < |line| - 1 ==> line[k] != '\n'
  }

  lemma LinesCons(line: string, rest: string)
    requires IsLine(line)
    ensures Lines(line + rest) == [line] + Lines(rest)
  {
    IndexOfAt(line + rest, '\n', |line| - 1);
    assert (line + rest)[..|line|] == line && (line + rest)[|line|..] == rest;
  }

  /** The loop `for line in lines: (name, score) = line.split(" "); scores[name] = int(score)`. */
  function LoadScoreLines(lines: seq<string>, acc: Table): Option<Table> {
    if lines == [] then Some(acc)
    else
      var fields := Split(lines[0], ' ');
      if |fields| != 2 then None
      else match ParseInt(fields[1])
        case None => None
        case Some(v) => LoadScoreLines(lines[1..], Put(acc, fields[0], v))
  }

  /** Reading the score file into an empty table; None where the plugin raises. */
  function LoadScores(text: string): Option<Table> {
    LoadScoreLines(Lines(text), [])
  }

  /** Apart from a final line break, the line holds none. */
  predicate InLine(line: string) {
    forall k :: 0 <= k < |line| - 1 ==> line[k] != '\n'
  }

  /** `readlines()` keeps line breaks out of the inside of every line. */
  lemma {:induction false} LinesInLine(text: string)
    ensures forall k :: 0 <= k < |Lines(text)| ==> InLine(Lines(text)[k])
    decreases |text|
  {
    match IndexOf(text, '\n') {
      case None =>
        assert forall k :: 0 <= k < |text| ==> text[k] in text;
      case Some(i) =>
        LinesInLine(text[i + 1..]);
        var line, rest := text[..i + 1], Lines(text[i + 1..]);
        assert forall k :: 0 <= k < i ==> line[k] == text[..i][k] && text[..i][k] in text[..i];
        forall k | 0 < k < |Lines(text)|
          ensures InLine(Lines(text)[k])
        {
          assert Lines(text)[k] == rest[k - 1];
        }
    }
  }

  /** The name field of a line that splits into two fields holds neither a blank nor a line break. */
  lemma SplitNameOk(line: string)
    requires InLine(line) && |Split(line, ' ')| == 2
    ensures NameOk(Split(line, ' ')[0])
  {
    var i := IndexOf(line, ' ');
    assert i.Some?;
    var j := i.value;
    var name := line[..j];
    assert Split(line, ' ')[0] == name;
    assert forall k :: 0 <= k < j ==> name[k] == line[k];
  }

  lemma {:induction false} LoadScoreLinesOk(lines: seq<string>, acc: Table)
    requires DistinctKeys(acc) && NamesOk(acc)
    requires forall k :: 0 <= k < |lines| ==> InLine(lines[k])
    requires LoadScoreLines(lines, acc).Some?
    ensures DistinctKeys(LoadScoreLines(lines, acc).value) && NamesOk(LoadScoreLines(lines, acc).value)
    decreases |lines|
  {
    if lines != [] {
      var fields := Split(lines[0], ' ');
      var v := ParseInt(fields[1]).value;
      SplitNameOk(lines[0]);
      PutKeys(acc, fields[0], v);
      PutNames(acc, fields[0], v);
      LoadScoreLinesOk(lines[1..], Put(acc, fields[0], v));
    }
  }

  /** Every table read from a score file has no name twice (up to case) and only names the file can hold. */
  lemma LoadScoresOk(text: string)
    requires LoadScores(text).Some?
    ensures DistinctKeys(LoadScores(text).value) && NamesOk(LoadScores(text).value)
  {
    LinesInLine(text);
    LoadScoreLinesOk(Lines(text), []);
  }

  function ScoreLine(e: Entry): string {
    e.0 + " " + IntToString(e.1) + "\n"
  }

  lemma SplitTwo(a: string, b: string, sep: char)
    requires sep !in a && sep !in b
    ensures Split(a + [sep] + b, sep) == [a, b]
  {
    var s := a + [sep] + b;
    assert forall k :: 0 <= k < |a| ==> s[k] == a[k];
    IndexOfAt(s, sep, |a|);
    assert s[..|a|] == a && s[|a| + 1..] == b;
  }

  lemma ScoreLineParts(name: string, v: int)
    requires NameOk(name)
    ensures IsLine(ScoreLine((name, v)))
    ensures Split(ScoreLine((name, v)), ' ') == [name, IntToString(v) + "\n"]
  {
    var num := IntToString(v);
    var line := ScoreLine((name, v));
    assert line == name + [' '] + (num + "\n");
    assert ' ' !in num + "\n";
    SplitTwo(name, num + "\n", ' ');
    assert forall k :: 0 <= k < |name| ==> line[k] == name[k];
    assert forall k :: |name| < k < |line| - 1 ==> line[k] == num[k - |name| - 1];
  }

  /** A name absent from the table is appended at its end. */
  lemma PutNew(acc: Table, e: Entry)
    requires forall k :: 0 <= k < |acc| ==> Lower(acc[k].0) != Lower(e.0)
    ensures Put(acc, e.0, e.1) == acc + [e]
  {
    FindAbsent(acc, e.0);
  }

  lemma DistinctSplit(acc: Table, t: Table)
    requires DistinctKeys(acc + t) && t != []
    ensures forall k :: 0 <= k < |acc| ==> Lower(acc[k].0) != Lower(t[0].0)
    ensures DistinctKeys(acc + [t[0]] + t[1..])
  {
    ConsSplit(acc, t);
    forall k | 0 <= k < |acc|
      ensures Lower(acc[k].0) != Lower(t[0].0)
    {
      assert (acc + t)[k] == acc[k] && (acc + t)[|acc|] == t[0];
    }
  }

  /** What `write` puts in the score file, line by line. */
  function ScoreLines(t: Table): (r: seq<string>)
    ensures |r| == |t|
  {
    if t == [] then [] else [ScoreLine(t[0])] + ScoreLines(t[1..])
  }

  /** What `write` puts in the score file. */
  function FormatScores(t: Table): string {
    if t == [] then "" else ScoreLine(t[0]) + FormatScores(t[1..])
  }

  lemma {:induction false} LinesOfScores(t: Table)
    requires NamesOk(t)
    ensures Lines(FormatScores(t)) == ScoreLines(t)
  {
    if t == [] {
      assert FormatScores(t) == [];
      assert IndexOf([], '\n') == None;
    } else {
      ScoreLineParts(t[0].0, t[0].1);
      LinesCons(ScoreLine(t[0]), FormatScores(t[1..]));
      assert NamesOk(t[1..]) by {
        assert forall k :: 0 <= k < |t[1..]| ==> t[1..][k] == t[k + 1];
      }
      LinesOfScores(t[1..]);
    }
  }

  /** Reading one line that `write` produced stores its entry and moves on. */
  lemma ScoreLineStep(e: Entry, rest: seq<string>, acc: Table)
    requires NameOk(e.0)
    ensures LoadScoreLines([ScoreLine(e)] + rest, acc) == LoadScoreLines(rest, Put(acc, e.0, e.1))
  {
    ScoreLineParts(e.0, e.1);
    IntRoundTrip(e.1, "\n");
    assert ([ScoreLine(e)] + rest)[1..] == rest;
  }

  /** Storing the entries of t one after the other, as the loading loop does. */
  function PutAll(acc: Table, t: Table): Table
    decreases t
  {
    if t == [] then acc else PutAll(Put(acc, t[0].0, t[0].1), t[1..])
  }

  lemma {:induction false} LoadScoreLinesOf(t: Table, acc: Table)
    requires NamesOk(t)
    ensures LoadScoreLines(ScoreLines(t), acc) == Some(PutAll(acc, t))
    decreases |t|
  {
    if t != [] {
      ScoreLineStep(t[0], ScoreLines(t[1..]), acc);
      assert NamesOk(t[1..]) by {
        assert forall k :: 0 <= k < |t[1..]| ==> t[1..][k] == t[k + 1];
      }
      LoadScoreLinesOf(t[1..], Put(acc, t[0].0, t[0].1));
    }
  }

  lemma PutAllStep(acc: Table, t: Table)
    requires DistinctKeys(acc + t) && t != []
    ensures PutAll(acc, t) == PutAll(acc + [t[0]], t[1..])
    ensures acc + [t[0]] + t[1..] == acc + t
  {
    DistinctSplit(acc, t);
    PutNew(acc, t[0]);
    ConsSplit(acc, t);
  }

  lemma ConsSplit(a: Table, b: Table)
    requires b != []
    ensures a + [b[0]] + b[1..] == a + b
  {
    assert b == [b[0]] + b[1..];
  }

  /** With no name repeated, storing the entries appends them in order. */
  lemma {:induction false} PutAllDistinct(acc: Table, t: Table)
    requires DistinctKeys(acc + t)
    ensures PutAll(acc, t) == acc + t
    decreases |t|
  {
    if t == [] {
      assert acc + t == acc;
    } else {
      PutAllStep(acc, t);
      PutAllDistinct(acc + [t[0]], t[1..]);
    }
  }

  /** Re-reading the score file `write` produced gives back the same table, order included. */
  lemma ScoresRoundTrip(t: Table)
    requires DistinctKeys(t) && NamesOk(t)
    ensures LoadScores(FormatScores(t)) == Some(t)
  {
    LinesOfScores(t);
    LoadScoreLinesOf(t, []);
    assert [] + t == t;
    PutAllDistinct([], t);
  }

  // ---------------------------------------------------------------------
  // The history file: one clue id per line
  // ---------------------------------------------------------------------

  function HistoryLines(ids: seq<int>): (r: seq<string>)
    ensures |r| == |ids|
  {
    if ids == [] then [] else [IntToString(ids[0]) + "\n"] + HistoryLines(ids[1..])
  }

  function FormatHistory(ids: seq<int>): string {
    if ids == [] then "" else IntToString(ids[0]) + "\n" + FormatHistory(ids[1..])
  }

  /** The loop `for line in lines: history.append(int(line))`. */
  function LoadHistoryLines(lines: seq<string>, acc: seq<int>): Option<seq<int>> {
    if lines == [] then Some(acc)
    else match ParseInt(lines[0])
      case None => None
      case Some(id) => LoadHistoryLines(lines[1..], acc + [id])
  }

  function LoadHistory(text: string): Option<seq<int>> {
    LoadHistoryLines(Lines(text), [])
  }

  lemma {:induction false} LinesOfHistory(ids: seq<int>)
    ensures Lines(FormatHistory(ids)) == HistoryLines(ids)
  {
    if ids == [] {
      assert IndexOf([], '\n') == None;
    } else {
      var num := IntToString(ids[0]);
      assert IsLine(num + "\n");
      LinesCons(num + "\n", FormatHistory(ids[1..]));
      LinesOfHistory(ids[1..]);
    }
  }

  lemma {:induction false} LoadHistoryLinesOf(ids: seq<int>, acc: seq<int>)
    ensures LoadHistoryLines(HistoryLines(ids), acc) == Some(acc + ids)
    decreases |ids|
  {
    if ids == [] {
      assert acc + ids == acc;
    } else {
      IntRoundTrip(ids[0], "\n");
      LoadHistoryLinesOf(ids[1..], acc + [ids[0]]);
      assert acc + [ids[0]] + ids[1..] == acc + ids;
    }
  }

  /** Re-reading the history file gives back the same ids in the same order. */
  lemma HistoryRoundTrip(ids: seq<int>)
    ensures LoadHistory(FormatHistory(ids)) == Some(ids)
  {
    LinesOfHistory(ids);
    assert [] + ids == ids;
    LoadHistoryLinesOf(ids, []);
  }
}
