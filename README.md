# Jeopardy game session, modelled in Dafny

This project models the per-channel game session of the Limnoria Jeopardy!
plugin: the `Jeopardy.Game` object in `Jeopardy/plugin.py`. A game covers
the following:

- It builds a question pool from the clue records the clue service returns.
  - Records pass a validity filter.
  - Duplicate ids and, when history is kept, ids already asked in the
    channel are excluded.
  - At most `num` clues are accepted.
- It reverses or shuffles that pool.
- It then asks the clues one by one, popping the last one each time.
  - `newquestion` checks the stop conditions and prepares the next clue: it
    removes the "(N of)" markers, blanks the answer out and splits off the
    answer's variants.
  - `next_question` opens the clue.
  - `hint` reveals random blanked letters and costs points.
  - `end` closes a clue nobody answered, and `skip` closes it on request.
  - `answer` compares a guess with the variants, using whitespace
    normalisation, lower-casing and the comparable key `clean`, and credits
    the guesser.
- `stop` writes the score and history files and announces the round's top
  three. It then either deactivates the game or schedules a restart.

The model works as follows:

- The session is a Dafny `class Game` whose methods update its fields in
  place.
- The pool set-up loops, the hint's reveal loop and the answer-matching loop
  are methods with loop invariants. Each is proved against a specification:
  - The random branch computes the function `RandomPool`, and the category
    branch computes `CategoryPool`. Each is built from the record-loop
    function of one response (`Select`, `CategoryRecords`).
  - The reveal loop is proved against the relation `Reveals`, and answer
    matching against the predicate `Accepts`.
  - The session's constructor and its restart compose acquisition and
    arrangement. They state the started pool through `Acquired` and
    `Started`.
- The string work (`clean`, the "(N of)" markers, the blanked form, the
  variants, `split`/`join`/`strip`/`lower`/`capwords`) is made of functions.
- The case-insensitive score dictionaries are sequences of `(name, score)`
  entries in insertion order.
- The score and history files are text values. They come with their
  `write` format and their parse.

Effects are made explicit:

- A scheduled event (`event_`, `clue_` or `end_`) is an element of the
  `timers` set. The event firing is a call of the method it runs.
- The current time is a parameter `now`.
- Random draws are a parameter `draws`.
- The clue service's answers are a sequence of responses.

Modules, one per file:

| file | module | contents |
|---|---|---|
| `wrappers.dfy` | `Wrappers` | `Option` |
| `numbers.dfy` | `Numbers` | Python rounding and decimal text |
| `text.dfy` | `Text` | string operations |
| `scores.dfy` | `Scores` | score tables, the two file formats |
| `clues.dfy` | `Clues` | records, filter, acquisition, pool order |
| `hints.dfy` | `Hints` | the reveal loop |
| `answers.dfy` | `Answers` | guess matching |
| `session.dfy` | `Session` | the `Game` class |

## Model

| member | source | states |
|---|---|---|
| Numbers.RoundHalfEven | Jeopardy/plugin.py:611 | Python's `round`: the result is within one half of the argument, and on a tie it is the even neighbour |
| Numbers.RoundToTens | Jeopardy/plugin.py:630 | `round(x, -1)`: the result is a multiple of ten within five of the argument |
| Numbers.Share | Jeopardy/plugin.py:611 | a hint's share `round(divider * hintPercentage)` is an integer within one half of `divider * hintPercentage` |
| Numbers.Penalty | Jeopardy/plugin.py:630 | a hint's penalty `round(p * reduction, -1)` is a multiple of ten within five of `p * reduction` |
| Numbers.Scaled | Jeopardy/plugin.py:611 | a fraction between 0 and 1 of a non-negative count lies between 0 and the count |
| Numbers.ShareWithinDivider | Jeopardy/plugin.py:610-612 | with `hintPercentage` a fraction, a hint's share `round(divider * hintPercentage)` lies between 0 and `divider`, so `divider` never goes negative |
| Numbers.RoundWithin | Jeopardy/plugin.py:611 | rounding a value between 0 and a count stays between 0 and the count |
| Numbers.RoundToTensWithin | Jeopardy/plugin.py:630 | rounding to tens a value between 0 and a multiple of ten stays within those bounds |
| Numbers.PenaltyWithinPoints | Jeopardy/plugin.py:630 | for a clue worth a multiple of ten and a reduction between 0 and 1, a changed hint's penalty lies between 0 and the points, so the points stay non-negative |
| Numbers.PenaltyNonNegative | Jeopardy/plugin.py:630 | with a non-negative reduction the penalty is never negative, so a hint never raises the points |
| Numbers.DigitChar | Jeopardy/plugin.py:735 | a decimal digit becomes a digit character |
| Numbers.NatToString | Jeopardy/plugin.py:735 | the decimal text of a natural is non-empty and all digits |
| Numbers.IntToString | Jeopardy/plugin.py:735 | `"%s" % i` is non-empty, all digits apart from a leading minus sign |
| Numbers.ParseInt | Jeopardy/plugin.py:175 | `int(text)` yields a value only for text that is not all whitespace |
| Numbers.ParseStripped | Jeopardy/plugin.py:175 | `int` on stripped text yields a value only for non-empty text |
| Numbers.DigitsOfNat | Jeopardy/plugin.py:173-175 | reading the digits of a natural back gives the natural |
| Numbers.ParseIntToString | Jeopardy/plugin.py:173-175 | `int("%s" % i) == i` for every integer, negative ones included |
| Numbers.ParseIntIgnoresTrailingSpaces | Jeopardy/plugin.py:175 | a trailing line break or other whitespace does not change what `int` reads |
| Numbers.IntRoundTrip | Jeopardy/plugin.py:165 | `int` reads a history line `"%s\n" % id` back as the id |
| Text.Lower | Jeopardy/plugin.py:670-671 | `lower()` keeps the length and lowers each character where it is |
| Text.Filter | Jeopardy/plugin.py:414-417 | removing characters by class keeps only characters of the text that are in the class |
| Text.FilterAppend | Jeopardy/plugin.py:414 | filtering a concatenation filters each part |
| Text.FilterKeepsAll | Jeopardy/plugin.py:414-417 | a text made only of kept characters is unchanged |
| Text.FilterTwice | Jeopardy/plugin.py:414-415 | dropping non-alphanumerics other than blanks, then the blanks, drops exactly the non-alphanumerics |
| Text.DropSpacesSpec | Jeopardy/plugin.py:205-207 | dropping leading whitespace gives a suffix that starts with no whitespace |
| Text.TrimEndSpec | Jeopardy/plugin.py:205-207 | dropping trailing whitespace gives a prefix that ends with no whitespace |
| Text.WordLenSpec | Jeopardy/plugin.py:670 | the leading word is the maximal run of non-whitespace characters |
| Text.Words | Jeopardy/plugin.py:670 | `split()`: the maximal runs of non-whitespace characters, in order (definition) |
| Text.WordsAreWords | Jeopardy/plugin.py:670 | every piece `split()` returns is a non-empty run without whitespace |
| Text.Join | Jeopardy/plugin.py:670 | `" ".join(ws)`: the words with one blank between neighbours (definition) |
| Text.JoinSquashed | Jeopardy/plugin.py:670 | joining words with single blanks leaves no whitespace at the ends and no whitespace run |
| Text.SplitJoin | Jeopardy/plugin.py:670 | `split()` of words joined with single blanks gives the words back, so splitting undoes joining |
| Text.WordLenOf | Jeopardy/plugin.py:670 | a run without whitespace followed by whitespace or by nothing is exactly the leading word `split()` takes |
| Text.WordsSkipSpace | Jeopardy/plugin.py:670 | a leading whitespace character does not change what `split()` returns |
| Text.Squash | Jeopardy/plugin.py:670-671 | `" ".join(s.split())` has no whitespace at its ends and single blanks between words |
| Text.Strip | Jeopardy/plugin.py:205-207 | `strip()`: leading and trailing whitespace removed (definition) |
| Text.StripEnds | Jeopardy/plugin.py:205-207 | the result of `strip()` neither starts nor ends with whitespace |
| Text.TrimEndSpaces | Jeopardy/plugin.py:174-175 | trailing whitespace after text that ends with none is exactly what is trimmed |
| Text.StripTrailingSpaces | Jeopardy/plugin.py:174-175 | stripping text that has no whitespace at its ends, followed by whitespace, gives the text back |
| Text.Capitalize | Jeopardy/plugin.py:208 | `capitalize()` keeps a word's length |
| Text.CapitalizeWord | Jeopardy/plugin.py:208 | capitalizing a word gives a word: non-empty and without whitespace |
| Text.CapitalizeAll | Jeopardy/plugin.py:208 | `capwords` capitalizes every word of the split, each where it was |
| Text.Capwords | Jeopardy/plugin.py:208 | `string.capwords`: the capitalized words joined with single blanks (definition) |
| Text.CapwordsSquashed | Jeopardy/plugin.py:208 | a category title after `capwords` has no whitespace at its ends and single blanks between words |
| Text.StripArticle | Jeopardy/plugin.py:415 | removing a leading article leaves a suffix of the text |
| Text.Clean | Jeopardy/plugin.py:411-418 | `clean` yields only letters and digits, and never a longer text |
| Text.CleanDropsArticle | Jeopardy/plugin.py:413-415 | on a text longer than two characters that starts with one of `"a "`, `"an "`, `"the "`, `"or "`, exactly that article goes, and what follows keeps its letters and digits |
| Text.StripArticleOf | Jeopardy/plugin.py:415 | one leading article is removed and the rest is kept whole; a second article is not removed |
| Text.StripArticleNoBlank | Jeopardy/plugin.py:415 | a text without blanks has no article to remove |
| Text.CleanShortKeeps | Jeopardy/plugin.py:416-417 | a text of at most two letters and digits keeps everything, so `"a1"` stays `"a1"` |
| Text.CleanIdempotent | Jeopardy/plugin.py:411-418 | `clean(clean(t)) == clean(t)` |
| Text.StripCountMarkers | Jeopardy/plugin.py:464 | removing the "(N of)" markers never lengthens the answer |
| Text.StripCountMarkersNoParen | Jeopardy/plugin.py:464 | an answer without `(` is left alone |
| Text.StripCountMarkersRemovesMarker | Jeopardy/plugin.py:464 | a marker `(d of)` is removed and nothing around it |
| Text.Blank | Jeopardy/plugin.py:467 | the blanked form has the answer's length, with `blankChar` at every word character and the answer's own character elsewhere |
| Text.AlnumCount | Jeopardy/plugin.py:465 | the letter-and-digit count `divider` starts from is at most the answer's length |
| Text.LastIndexOf | Jeopardy/plugin.py:470 | finds the last occurrence of a character, or reports that there is none |
| Text.Variants | Jeopardy/plugin.py:466-472 | the first variant is the answer; without `(` it is the only one; otherwise there are three |
| Text.LastIndexOfAt | Jeopardy/plugin.py:470 | an occurrence that no later character repeats is the last occurrence |
| Text.LastCloseAt | Jeopardy/plugin.py:470 | the greedy `(.*)\)` ends at the last `)` |
| Text.LastOpenAt | Jeopardy/plugin.py:470 | the greedy `(.*)\(` ends at the last `(` before that |
| Text.VariantsSplit | Jeopardy/plugin.py:469-472 | for `x(y)z` with no `(` in `y` and no `)` in `z`, the variants are `[x(y)z, x+z, y]`: the split the greedy regular expression finds |
| Text.VariantsFailure | Jeopardy/plugin.py:469-470 | the split fails exactly when the answer has a `(` and no `)` comes after any `(`, which is where `re.match` returns None |
| Scores.Find | Jeopardy/plugin.py:706-709 | case-insensitive lookup: the first entry whose name matches up to case, or none at all |
| Scores.Put | Jeopardy/plugin.py:707-708 | after `t[name] = v`, the name maps to `v`; the table grows only for a new name |
| Scores.PutKeys | Jeopardy/plugin.py:707-708 | an update keeps every entry's name and place, so no name is ever repeated |
| Scores.FindFirst | Jeopardy/plugin.py:706 | lookup finds the first entry whose name matches |
| Scores.FindAbsent | Jeopardy/plugin.py:706 | lookup finds nothing when no name matches |
| Scores.PutOther | Jeopardy/plugin.py:707-708 | updating one name leaves every other name's score as it was |
| Scores.PutNames | Jeopardy/plugin.py:707-708 | an update keeps every name writable to the score file |
| Scores.CreditKeeps | Jeopardy/plugin.py:706-711 | crediting keeps the table free of repeated names and keeps its names writable |
| Scores.Credit | Jeopardy/plugin.py:706-711 | crediting adds exactly `p` to the guesser's score, starting from 0 for a new name |
| Scores.CreditOthers | Jeopardy/plugin.py:706-711 | crediting one player changes no other player's score |
| Scores.WithScoreAppend | Jeopardy/plugin.py:534 | the entries with one score in a concatenation are those of each part |
| Scores.Insert | Jeopardy/plugin.py:534 | one step of the stable descending sort adds exactly one entry |
| Scores.InsertPerm | Jeopardy/plugin.py:534 | that step adds the entry and changes no other |
| Scores.InsertSorted | Jeopardy/plugin.py:534 | that step keeps a descending table descending |
| Scores.WithScoreCons | Jeopardy/plugin.py:534 | the entries with one score in a table that starts with `e` |
| Scores.InsertWithScore | Jeopardy/plugin.py:534 | the inserted entry goes after every earlier entry with its score |
| Scores.WithScoreBelow | Jeopardy/plugin.py:534 | a descending table below a score holds no entry with that score |
| Scores.SortDesc | Jeopardy/plugin.py:529-534 | `sort(key=score, reverse=True)` keeps the length and gives a descending order |
| Scores.SortDescPerm | Jeopardy/plugin.py:529-534 | the sort is a permutation: the same entries, each as often |
| Scores.SortDescStable | Jeopardy/plugin.py:534 | the sort is stable: for every score, the entries with it keep their insertion order |
| Scores.TopFinishers | Jeopardy/plugin.py:529-543 | `stop` announces `min(3, players)` round scores in descending order |
| Scores.TopFinishersBest | Jeopardy/plugin.py:529-543 | every finisher is a player of the round, and nobody left off the podium outscores anyone on it |
| Scores.IndexOf | Jeopardy/plugin.py:174 | finds the first occurrence of the separator, or reports that there is none |
| Scores.IndexOfAt | Jeopardy/plugin.py:174 | an occurrence with none before it is the first |
| Scores.Split | Jeopardy/plugin.py:174 | `split(sep)` always returns at least one field |
| Scores.Lines | Jeopardy/plugin.py:172 | `readlines()`: the text cut after every line break, the last line without one when the text does not end in one (definition) |
| Scores.LinesCons | Jeopardy/plugin.py:172 | `readlines()` of a text that starts with a complete line returns that line first |
| Scores.LoadScoreLines | Jeopardy/plugin.py:173-175 | the loading loop: every line must split at blanks into exactly a name and an integer, stored with `t[name] = int(score)`; any other line fails the load (definition) |
| Scores.LoadScores | Jeopardy/plugin.py:170-176 | the score file read line by line into a table, or a failure where the plugin raises (definition) |
| Scores.LinesInLine | Jeopardy/plugin.py:172 | every line `readlines()` returns holds a line break at most at its end |
| Scores.SplitNameOk | Jeopardy/plugin.py:174 | the name field of a line that splits into two fields holds neither a blank nor a line break |
| Scores.LoadScoreLinesOk | Jeopardy/plugin.py:173-175 | the loading loop builds a table with no repeated name and only names the file can hold |
| Scores.LoadScoresOk | Jeopardy/plugin.py:170-176 | the same holds for every table read from a score file |
| Scores.SplitTwo | Jeopardy/plugin.py:174 | a line holding one separator splits into the two parts around it |
| Scores.ScoreLine | Jeopardy/plugin.py:735 | `"%s %s\n" % (name, score)` (definition) |
| Scores.ScoreLineParts | Jeopardy/plugin.py:735 | a line `"%s %s\n"` that `write` produces is one line, and it splits into the name and the score's text |
| Scores.PutNew | Jeopardy/plugin.py:175 | storing a name not yet in the table appends it |
| Scores.DistinctSplit | Jeopardy/plugin.py:175 | a table with no repeated name, split at one entry, still has none |
| Scores.ScoreLines | Jeopardy/plugin.py:734-735 | `write` produces one line per entry |
| Scores.FormatScores | Jeopardy/plugin.py:732-736 | the score file `write` produces: one line per entry, in table order (definition) |
| Scores.LinesOfScores | Jeopardy/plugin.py:734-735 | `readlines()` of the score file returns exactly the lines `write` wrote |
| Scores.ScoreLineStep | Jeopardy/plugin.py:173-175 | reading one written line stores its entry and goes on with the rest |
| Scores.LoadScoreLinesOf | Jeopardy/plugin.py:173-175 | reading all written lines stores the entries one after the other |
| Scores.PutAllStep | Jeopardy/plugin.py:175 | storing entries with no repeated name, one at a time |
| Scores.ConsSplit | Jeopardy/plugin.py:175 | re-associating a table at its next entry |
| Scores.PutAllDistinct | Jeopardy/plugin.py:175 | storing entries with no repeated name appends them in order |
| Scores.ScoresRoundTrip | Jeopardy/plugin.py:170-176 | re-reading the score file that `write` produced gives back the same table, order included |
| Scores.HistoryLines | Jeopardy/plugin.py:739-740 | `write` produces one history line per id |
| Scores.FormatHistory | Jeopardy/plugin.py:737-741 | the history file `write` produces: one `"%s\n" % id` line per id, in order (definition) |
| Scores.LoadHistoryLines | Jeopardy/plugin.py:164-165 | the loop `history.append(int(line))`; a line that is not an integer fails the load (definition) |
| Scores.LoadHistory | Jeopardy/plugin.py:156-166 | the history file read line by line into ids, or a failure where the plugin raises (definition) |
| Scores.LinesOfHistory | Jeopardy/plugin.py:739-740 | `readlines()` of the history file returns exactly those lines |
| Scores.LoadHistoryLinesOf | Jeopardy/plugin.py:164-165 | the loading loop appends the written ids in order |
| Scores.HistoryRoundTrip | Jeopardy/plugin.py:737-741 | re-reading the history file gives back the same ids in the same order |
| Clues.AirdateDay | Jeopardy/plugin.py:206 | `split("T")[0]` is the prefix up to the first `T`, without any `T` |
| Clues.ToClue | Jeopardy/plugin.py:204-215 | the clue a record gives: id, airdate day, points (the value, or the default for a null or 0 value), `capwords` of the category title, the stripped question and answer (definition) |
| Clues.ToClueFields | Jeopardy/plugin.py:204-215 | the clue keeps the record's id; its airdate is the part of the record's before the first `T`; its points are the value, or the default when that is 0; its category is squashed; the question and answer have no whitespace at their ends |
| Clues.ClueOk | Jeopardy/plugin.py:218-225 | the record checks on the built clue: question, airdate, answer and category non-empty, and the answer not `=` (definition) |
| Clues.Ids | Jeopardy/plugin.py:232 | `asked` lists the pool's ids in order |
| Clues.Acceptable | Jeopardy/plugin.py:216-243 | the checks that do not depend on the pool: `ClueOk`, `invalid_count` 0, and the id not in the channel history when it is kept (definition) |
| Clues.Admissible | Jeopardy/plugin.py:216-243 | the whole filter: acceptable and the id not in `asked` (definition) |
| Clues.AdmitKeepsPool | Jeopardy/plugin.py:216-250 | adding a record that passes the filter keeps the pool valid: valid fields, no repeated id, no id from the history when it is kept |
| Clues.Select | Jeopardy/plugin.py:201-250 | the record loop only appends to the pool, keeps it valid, and never takes it past `num` |
| Clues.IdsAppend | Jeopardy/plugin.py:232 | appending a clue appends its id to `asked` |
| Clues.SelectStep | Jeopardy/plugin.py:201-203 | while the pool is short of `num`, the loop takes the next record and goes on |
| Clues.Take | Jeopardy/plugin.py:216-250 | a record's clue is appended exactly when the record passes the whole filter, and otherwise the pool is unchanged; the pool stays valid |
| Clues.SelectFromItems | Jeopardy/plugin.py:201-250 | every clue the loop adds is the clue of one of the batch's records |
| Clues.SelectMaximal | Jeopardy/plugin.py:201-250 | when the loop ends short of `num`, every acceptable record of the batch is in the pool |
| Clues.TakeRecords | Jeopardy/plugin.py:216-250 | after a step, an acceptable record's id is in the pool, whether newly added or already there |
| Clues.IdsPrefix | Jeopardy/plugin.py:223 | an id in a prefix of the pool is an id in the pool |
| Clues.RandomPool | Jeopardy/plugin.py:179-253 | random acquisition only extends the pool, keeps it valid, and accepts at most `num` clues |
| Clues.RandomStep | Jeopardy/plugin.py:181-253 | a batch that neither fails nor ends the acquisition is filtered into the pool, and acquisition goes on with the next request |
| Clues.RandomPoolDone | Jeopardy/plugin.py:181-183 | random acquisition stops once `num` clues are pooled or no response is left |
| Clues.RandomPoolFromBatches | Jeopardy/plugin.py:179-253 | every clue random acquisition pools is the clue of an acceptable record some batch delivered |
| Clues.FilterBatch | Jeopardy/plugin.py:201-250 | the record loop of one batch computes exactly `Select`, and `asked` stays the pool's ids |
| Clues.RandomRequest | Jeopardy/plugin.py:184-253 | one request of the random branch: a failed request, or an empty batch when the service is not jservice.io, ends acquisition; otherwise the batch is filtered into the pool and acquisition goes on; the pool stays valid and within `num` |
| Clues.AcquireRandom | Jeopardy/plugin.py:177-253 | the random branch computes exactly `RandomPool`: a valid pool of at most `num` clues, each the clue of an acceptable record of some batch |
| Clues.FromItemsResponses | Jeopardy/plugin.py:349-385 | a traced pool extended by clues of one fetched response stays traced to the responses |
| Clues.CategoryRecords | Jeopardy/plugin.py:327-385 | the record loop of one category: the pool stays valid and within `num`; shuffling only switches off; when shuffling is still on at the end, every clue the category added was taken while it had given fewer than a fifth of `num` (the cap `j >= num * 0.2`) |
| Clues.CategoryRecordsReset | Jeopardy/plugin.py:331-334 | reaching the last category with `shuffle` on switches shuffling off, restarts `k`, and goes on with the same record |
| Clues.CategoryRecordsStep | Jeopardy/plugin.py:328-385 | a record that neither resets nor meets the cap goes through the filter, and the loop goes on with the next record |
| Clues.CategoryRecordsSelect | Jeopardy/plugin.py:328-385 | without shuffling, a category's record loop is the random branch's record loop `Select`, so it takes every acceptable record until `num` |
| Clues.CategoryRecordsFromItems | Jeopardy/plugin.py:328-385 | a category's record loop only appends to the pool, and each clue it adds is the clue of an acceptable record of the response |
| Clues.Limit | Jeopardy/plugin.py:274-276 | `num` drops to the category's clue count only with a single category and a smaller count; otherwise it is kept |
| Clues.CategoryPool | Jeopardy/plugin.py:254-390 | the category branch: a valid pool traced to the responses, and with several categories at most `num` clues |
| Clues.CategoryPoolDone | Jeopardy/plugin.py:257-262 | the category branch stops at `num` clues, past `num` at the start of a pass, or once `k` exceeds the category count |
| Clues.CategoryPoolEnds | Jeopardy/plugin.py:263-390 | a failed request, an empty answer or a failed page request counts `k` and ends the pass |
| Clues.CategoryPoolNext | Jeopardy/plugin.py:327-386 | a fetched category runs its record loop, `k` is counted, and the pass goes on with the next category |
| Clues.CategoryBatch | Jeopardy/plugin.py:327-385 | one category's record loop computes exactly `CategoryRecords`, and `asked` stays the pool's ids |
| Clues.CategoryRequest | Jeopardy/plugin.py:263-390 | one category request computes one step of `CategoryPool`; the pool stays valid; it ends the pass or moves to the next category; shuffling switched off or `k` grew |
| Clues.CategoryPass | Jeopardy/plugin.py:260-390 | one pass over the categories leaves `CategoryPool` as it was, and shuffling switched off or `k` grew, so the passes end |
| Clues.AcquireCategories | Jeopardy/plugin.py:254-390 | the category branch computes exactly `CategoryPool`: a valid pool whose clues all come from acceptable records of fetched responses, with at most `num` clues over several categories |
| Clues.Reverse | Jeopardy/plugin.py:394 | `questions[::-1]` puts the k-th clue from the end at position k |
| Clues.PopReversed | Jeopardy/plugin.py:394 | popping the reversed pool yields the first clue acquired and leaves the reversal of the rest, so clues are asked in acquisition order |
| Clues.Shuffle | Jeopardy/plugin.py:392 | the shuffle is a permutation of the pool |
| Clues.Arrange | Jeopardy/plugin.py:391-394 | the pool is permuted, and without shuffle or randomize it is exactly reversed |
| Clues.ReverseMultiset | Jeopardy/plugin.py:394 | reversal is a permutation |
| Hints.RevealsTrans | Jeopardy/plugin.py:613-628 | a hint built over several calls still changes only blanks, each into the answer's character |
| Hints.HintShowsAnswer | Jeopardy/plugin.py:613-624 | every position of a hint grown from the blanked answer shows the answer's own character or a blank where the answer has a word character |
| Hints.ChangedNone | Jeopardy/plugin.py:617 | the hint before the loop differs from itself nowhere |
| Hints.ChangedUpdate | Jeopardy/plugin.py:624 | revealing one position changes at most one more position |
| Hints.PopIndex | Jeopardy/plugin.py:620-621 | `pop(randint(0, n) - 1)` pops a valid position, the last one when the draw is 0 |
| Hints.PopKeeps | Jeopardy/plugin.py:620-622 | popping a candidate leaves the other candidates, each as often as before |
| Hints.Reveal | Jeopardy/plugin.py:617-627 | the loop keeps the hint's length, turns only blanks into the answer's characters at those positions, reveals at most `divider` of them, only at popped positions, and never pops the last candidate |
| Hints.Positions | Jeopardy/plugin.py:616 | `list(range(len(show)))` lists every position once, in order |
| Answers.Key | Jeopardy/plugin.py:670-671 | the normalised guess or variant has no whitespace at its ends and single blanks between words |
| Answers.LowerSquashed | Jeopardy/plugin.py:670-671 | lower-casing keeps normalised text normalised |
| Answers.Accepts | Jeopardy/plugin.py:669-704 | one variant accepts a guess: equal normalised keys, or equal `clean` keys, or similar `clean` keys when fuzzy matching is on (definition) |
| Answers.Matches | Jeopardy/plugin.py:668-704 | a guess is correct exactly when some variant accepts it: equal keys, or equal `clean` keys, or the similarity test when fuzzy matching is on |
| Answers.CleanWord | Jeopardy/plugin.py:676-677 | for a one-word key of more than two characters, `clean` only drops non-alphanumerics |
| Answers.ArticleIgnored | Jeopardy/plugin.py:670-678 | a one-word answer is accepted when the guess is that answer after a leading article, whatever its case |
| Answers.PunctuationIgnored | Jeopardy/plugin.py:670-678 | one-word guesses longer than two characters that differ from the answer only in punctuation are accepted |
| Session.NextHint | Jeopardy/plugin.py:598-663 | one active `hint`: it counts the hint; it reveals only from the second hint up to `numHints`, and then only blanks, each into the answer's character, at most the share of `divider`; it costs `round(p * reduction, -1)` exactly when a hint after the first changes the text; the id, the drawn points, the blanked answer and the variants are kept; `divider` loses exactly the revealed share, or is kept; the first hint (count 0) changes nothing but the count |
| Session.RevealShare | Jeopardy/plugin.py:606-628 | a revealing hint starts from the blanked answer and every position once, reveals at most `round(divider * hintPercentage)` blanks as answer characters, and takes that share off `divider` |
| Session.Acquired | Jeopardy/plugin.py:177-390 | the pool `__init__` acquires: distinct valid clues not in the kept history, each from a delivered acceptable record; at most `numClues` from random batches or several categories |
| Session.Acquire | Jeopardy/plugin.py:177-390 | the acquisition loops compute exactly `Acquired`, by source |
| Session.Unsplittable | Jeopardy/plugin.py:469-470 | (definition) the next clue's answer, with its markers stripped, holds a `(` with no `)` after it, so `re.match` returns None and `.groups()` raises |
| Session.Launched | Jeopardy/plugin.py:397-401 | (definition) how `__init__` leaves the game: stopped on an empty pool, and the first clue open unless its split raises |
| Session.FirstAcquiredFirst | Jeopardy/plugin.py:391-401 | unshuffled, the first clue asked is the first one acquired, and the rest wait in acquisition order |
| Session.Game.constructor | Jeopardy/plugin.py:93-401 | a new game reads the overall scores from the score file, and the history file when history is kept and none is in memory; no round scores, no clue answered; the pool is the acquired pool, reversed unless shuffled; `total` is its size; the first clue is asked, and it is open at once (its id joining the history when kept) unless its variant split raises; an empty pool asks nothing and leaves the game stopped, inactive or with the restart scheduled |
| Session.Game.Begin | Jeopardy/plugin.py:177-401 | acquisition then arrangement: the pool is `Acquired` reversed, or a permutation of it when shuffled; `total` is its size; the last clue is popped and asked with `numAsked` 1 and is open unless its variant split raises, or nothing is asked from an empty pool and the game is stopped |
| Session.Game.Lay | Jeopardy/plugin.py:395-401 | `total` and `num` are the arranged pool's length; an empty pool asks nothing and leaves the game inactive or with the restart scheduled; otherwise the last clue is popped and asked, and it is open unless its variant split raises |
| Session.Game.Deal | Jeopardy/plugin.py:397-401 | an empty pool stops the game with nothing asked, leaving it inactive or with the restart scheduled; otherwise the first clue is popped with `numAsked` 1 and opened at once, since the delay applies only from the second clue on, unless its variant split raises |
| Session.Game.Clear | Jeopardy/plugin.py:511-523 | `clear` cancels all three named events |
| Session.Game.NewQuestion | Jeopardy/plugin.py:420-481 | a no-op while inactive; when `num == 0`, every clue is answered, or `total` clues were asked, it stops without touching the counters or the pool; when more than `inactiveShutoff` clues in a row went unanswered, it deactivates, again with the pool kept; otherwise it pops the last clue, decrementing `num` and incrementing `numAsked`; scores and tallies never change; `num + numAsked == total` and `num == len(questions)` hold throughout; `raised` holds exactly when the clue it pops has an answer whose variant split raises; the first clue of a game whose split does not raise is open at once |
| Session.Game.Proceed | Jeopardy/plugin.py:424-481 | `newquestion` after `clear` on an active game: the stop, the shutoff and the pop branches with the same guards and effects as Session.Game.NewQuestion, and `raised` exactly when the popped clue's split raises |
| Session.Game.Shutoff | Jeopardy/plugin.py:432-437 | the inactivity shutoff closes the clue, deactivates, writes the files and cancels every event, with no restart |
| Session.Game.Ask | Jeopardy/plugin.py:442-481 | the last clue is popped and counted, and becomes the current clue prepared from it: its points as both `p` and `points`, the answer with its "(N of)" markers stripped as the first variant, `divider` its letter and digit count, the hint the blanked answer, and the split variants when the split succeeds; it opens at once, or after `delay` from the second clue on; when the variant split raises, nothing is opened or scheduled and `raised` is true, and only then |
| Session.Game.Pop | Jeopardy/plugin.py:442-472 | the popped clue gives the id and points; its answer loses the "(N of)" markers; `divider` counts its letters and digits; the hint starts as the blanked answer; the variants are those of the answer |
| Session.Game.NextQuestion | Jeopardy/plugin.py:483-509 | the clue opens (`correct` False) with its id and variants kept; a freshly popped clue (no hint yet) opens exactly as prepared, at full points with the blanked answer, only its hint count changing; its id joins the history when kept; one hint is counted exactly when `showBlank`; the timeout is scheduled at `now + timeout` when a timeout is set; the timed reply is scheduled exactly when hints or the time are shown and `now + waitTime` falls before the timeout |
| Session.Game.Record | Jeopardy/plugin.py:486-487 | the history gains the opened clue's id exactly when history is kept |
| Session.Game.ScheduleReply | Jeopardy/plugin.py:498-507 | the timed reply is scheduled exactly when hints or the time are shown and it falls before the timeout |
| Session.Game.Hint | Jeopardy/plugin.py:598-663 | a no-op unless a clue is open; otherwise as `NextHint`: the hint count goes up, the reveal and `divider` update happen from the second hint up to `numHints`, the penalty only when a later hint changes the text, and `points` and the blanked answer are kept; the timed reply is rescheduled exactly when hints or the time are shown and it falls before the timeout; `clue_` and `end_` are left as they were |
| Session.Game.TimedEvent | Jeopardy/plugin.py:568-585 | a no-op on the clue when inactive, with no timeout, or with the clue resolved, where only the event is used up; otherwise with `showHints` one more hint is given, and without it the clue is left alone |
| Session.Game.End | Jeopardy/plugin.py:587-596 | a no-op unless a clue is open; otherwise `answered` and `unanswered` each go up by one, and scores and `total` are unchanged; `raised` holds exactly when the clue was open, the following `newquestion` passes its stop and shutoff checks with the raised tallies, and the next clue's variant split raises; when that `newquestion` passes its checks, exactly the top clue is popped and becomes current, and otherwise `num`, `numAsked` and the pool are kept |
| Session.Game.Timeout | Jeopardy/plugin.py:587-596 | the timeout event firing counts an open clue as answered and unanswered, and otherwise changes no tally; the pool step is `end`'s: the top clue is popped exactly when the following `newquestion` passes its checks, and otherwise the pool and counters are kept |
| Session.Game.Skip | Jeopardy/plugin.py:1143-1146 | corrected `skip`: an open clue counts as answered; the unanswered tally after the skip is the one before it, in every case; the pool step is `end`'s, and with no clue open the pool is kept |
| Session.Game.SkipAsWritten | Jeopardy/plugin.py:1143-1146 | `skip` as written: the tally goes down by one whenever the game is active, so with the next clue pending and the tally at 0 it becomes -1; where the variant split of the clue `end` moves on to raises (`raised`, under the same condition as Session.Game.End), the exception leaves `skip` before the decrement and the tally ends one higher; the pool step is `end`'s, and with no clue open the pool is kept |
| Session.Game.Answer | Jeopardy/plugin.py:665-724 | the guess wins exactly when a clue is open and some variant accepts it; a win credits the guesser with exactly the clue's current `p` in both the round and overall tables, resets `unanswered`, and counts the clue as answered, and then the top clue is popped exactly when the following `newquestion` passes its stop checks; otherwise nothing changes |
| Session.Game.Win | Jeopardy/plugin.py:705-724 | the credits in both tables, `unanswered` set to 0, `answered` incremented, and `total` unchanged; the following `newquestion` pops exactly the top clue unless `num` is 0, every clue is answered or `total` were asked, in which case the pool and counters are kept (the shutoff cannot fire with the tally at 0) |
| Session.Game.Award | Jeopardy/plugin.py:705-723 | the credit of exactly the clue's current `p` in both tables, the unanswered tally reset, the clue counted as answered and resolved, and every event cleared |
| Session.Game.Write | Jeopardy/plugin.py:732-741 | the score file holds the scores in their line format, and the history file holds the history when it is kept |
| Session.Game.Stop | Jeopardy/plugin.py:525-566 | the files are written and every event cancelled; the top finishers are announced when scores are shown; restart on and game active schedules the restart; otherwise the game is left inactive with `correct` True |
| Session.Game.Finish | Jeopardy/plugin.py:527-566 | after the files are written, the rest of `stop`: events cancelled, the scoreboard, then the restart or the deactivation |
| Session.Game.Announce | Jeopardy/plugin.py:528-543 | the announced finishers are the round's top three when scores are shown |
| Session.Game.Close | Jeopardy/plugin.py:544-566 | restart on and game active schedules the restart; otherwise the game is left inactive with `correct` True |
| Session.Game.StopCommand | Jeopardy/plugin.py:943-945 | the stop command deactivates the game, writes the score file and cancels every event; no restart follows |
| Session.Game.FireClueTimer | Jeopardy/plugin.py:544-563 | the `clue_` event opens the prepared clue, or restarts the game with an empty round table on a new pool of random clues, unshuffled unless `randomize`, keeping the overall scores, and with the first clue open unless its split raises or the game stopped on an empty pool |
| Session.Game.Restart | Jeopardy/plugin.py:544-563 | the restart is `__init__` with random clues and no shuffle: the overall scores are kept, because the score file just written reads back as the same table; the round table is emptied; the pool is the acquired random pool filtered by the history in memory, arranged and started as at the start, with the first clue open unless its split raises, or the game stopped again on an empty pool |
| Session.Game.Reset | Jeopardy/plugin.py:95-149 | the assignments `__init__` makes: active, no clue open, counters zeroed, `num` and `total` set to the requested clue count, empty pool and round table |

## Left out

- The clue service's HTTP requests, JSON decoding and the category search scraping are not modelled: they are network I/O. The records the service returns are an input sequence of responses, one per request. A request that raises and an exhausted input both end acquisition as a failed request.
- Random category selection and the search-by-name of the start command are left out: they are network I/O and scraping.
- `normalize` and the `|`-joined pool strings are not modelled: `normalize` depends on BeautifulSoup and ftfy. Pool entries are typed `Clue` records, as if the six fields survived the join and split unchanged, so neither a `|` inside a field nor a text `normalize` would change is represented.
- `unidecode` in `clean` is not modelled: text is taken to be ASCII already. The same assumption decides three other places: `\w` in the blanked answer (`Blank`), `\d` in the "(N of)" markers (`StripCountMarkers`), and the whitespace `split` and `strip` recognise (`IsSpace`). Each is read over ASCII only.
- Scores.Find, Scores.Put: the score tables compare nicks with the ASCII-only `Lower`, whereas `CaseInsensitiveDict` lowers keys with Python's Unicode `str.lower()`; two nicks that differ only in non-ASCII case are two entries in the model and one in the plugin.
- Fuzzy matching (`textdistance.jaro_winkler`, `jaccard` and the `flexibility` threshold) is an abstract `similar` predicate on the cleaned texts. It is consulted exactly when flexibility lies strictly between 0.5 and 1.
- `time.time`, `schedule.addEvent` and `removeEvent` are replaced: the time is the `now` parameter, and an event is an element of `timers` that its firing method removes. The `waitTime` division is taken as a configured value.
- `random.shuffle` and `random.randint` are replaced by the caller's `draws`. A missing draw counts as 0.
- Templates, `reply`, bold formatting, the displayed points and time left, and the op and capability checks are left out: they are presentation and transport.
- Opening, writing and creating files and directories are not modelled: the score and history files are the text values `write` produces and the constructor parses.
- config.py holds only registry declarations. The registry values a game reads are the constant `Settings`.
- The plugin's `threaded = True` concurrency is not modelled.
- Floats are exact reals: `hintPercentage`, `reduction` and the cap `j >= num * 0.2`, written as `5 * j >= num`.
- Python's `int()` accepting underscores and Unicode digits, and `readlines()` splitting on line breaks other than `\n`, are not modelled.
- `blankChar` is a single character.
- The variant regular expression's `.` does not match a line break. Answers are taken to have none after `normalize` joins whitespace.
- `re.match` returns None when an answer holds a `(` with no `)` after it, and `newquestion` then raises an AttributeError. The model counts the clue as asked and leaves it unopened, with no event scheduled, and reports the raise as `raised` from Session.Game.Ask, Session.Game.NewQuestion and Session.Game.End. Where `newquestion` is the last thing its caller does (`answer`, the `end_` event, the restart, which re-runs `__init__` in place), that is where the exception leaves the game. `skip` has a statement after `end()`: Session.Game.SkipAsWritten leaves out its decrement when `raised` is true, as the exception does. The corrected Session.Game.Skip models the intended command and takes the tally back in that case too.
- Session.Game.constructor: when the first clue's split raises at start, the exception escapes `Game(...)`, so `start` never stores the game (plugin.py:885) and the channel has no game. The model's constructor returns an active game stalled on that clue instead.
- A score file line that does not split into exactly a name and an integer makes the constructor raise. The constructor therefore requires the file to parse.
- Session.Game.constructor: when history is kept and none is in memory, a history file line that is not an integer makes the constructor raise, so the constructor requires that file to parse as well.
- Session.Game.constructor: a category source requires at least one category id, because `start` answers an empty search with an error before creating a game (plugin.py:847-877).
- A missing field in a service record (a KeyError) is not modelled. `invalid_count` and `value` use 0 for a null field, which the plugin treats the same way.
- `newquestion`'s third stop condition, the empty pool, is covered by `num == 0`, because `num == len(questions)` always holds.
- The `except: break` in the hint loop is not modelled: it is unreachable, because the popped index is always valid.
- The report command is left out: it posts to the clue service, then calls `end`, which is modelled.
- With the jservice.io URL, an empty batch does not end random acquisition; the next response is read instead of requesting forever.
- The per-clue attributes `id`, `p`, `points`, `hints`, `divider`, `a`, `blank`, `currentHint`, `show` and `revealed` are grouped in one `Current` value. `show` and `revealed` are kept for the current clue only, rather than as dictionaries keyed by id.
- Session.Game.Answer: requires the guesser's nick to hold no blank and no line break, as IRC nicks do, so that the score file can hold it.
- Session.Game.Win: requires the same of the nick, for the same reason.
- Clues.AcquireCategories: the bound of `num` clues is stated only for several categories. With a single category, `num` follows each response's clue count and can fall below what is already pooled.
- Numbers.PenaltyWithinPoints: bounds the penalty by the points only for points that are a multiple of ten, which clue values are. For other points, rounding to tens can exceed them: 6 points with a reduction of 1 cost 10.
- Session.Game.TimedEvent: states the hint count and, in every no-op case, the unchanged clue; the rest of the hint is stated by Session.Game.Hint.
- Session.Game.StopCommand: states the deactivation and the score file; the history file and the scoreboard are as in Session.Game.Stop.
- Session.Game.FireClueTimer: states the counters, the tables and the new pool after the event; the opened clue is described by Session.Game.NextQuestion.
- Session.Game.Restart: requires that the `clue_` event was removed first, as its firing does.
- Settings: `defaultPoints`, `randomize` and the service URL are registry values, read once per game; the URL is reduced to `emptyEnds`, which says whether an empty random batch ends acquisition.
- The per-category page requests (offsets 100 to 500) are one response: a `Fetched` response carries all pages' records, and a page that fails is a `PageError`.

## Findings

| source | as written | input that shows it | evidently intended | confidence | as-written member | corrected member |
|---|---|---|---|---|---|---|
| Jeopardy/plugin.py:1144-1146 | `skip` calls `end()` and then decrements `unanswered` unconditionally | `skip` on an active game between two clues, during the delay before the next one: `correct` is True, so `end` returns at once, and with `unanswered == 0` the tally becomes -1; each further skip lowers it again and postpones the inactivity shutoff | take back only the increment `end` made, so that `unanswered` stays the number of clues in a row nobody answered | high, not executed | Session.Game.SkipAsWritten | Session.Game.Skip |
