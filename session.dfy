/**
 * One channel's game: the question pool used as a stack, the tallies, the
 * current clue with its variants, blanked form and hint, the two score
 * tables and the channel history, and the named events the game schedules.
 *
 * An event firing is a call of the method it runs; the time of the call is
 * passed as `now`, and the random draws a hint makes are passed as `draws`.
 */
module Session {
  import opened Wrappers
  import opened Text
  import opened Numbers
  import opened Scores
  import opened Clues
  import opened Hints
  import opened Answers

  /** The three named events: the timed hint or reply (`event_`), the next clue or the restart (`clue_`), the timeout (`end_`). */
  datatype Timer = EventTimer | ClueTimer | EndTimer

  /** What the `clue_` event runs: the delayed `next_question`, or the restart after `stop`. */
  datatype ClueAction = AskNext | RestartGame

  /**
   * The game's configuration: the start command's arguments and the
   * channel's settings. `waitTime` is the interval between timed replies,
   * `fuzzy` says the flexibility setting lies strictly between 0.5 and 1,
   * `defaultPoints` is the value of a clue that has none, `randomize` asks
   * for a shuffled pool, and `emptyEnds` says the clue service is not
   * `http://jservice.io`, whose random batches are then read with a count
   * and an empty one ends the acquisition.
   */
  datatype Settings = Settings(
    numClues: int,
    numHints: int,
    timeout: int,
    delay: int,
    restart: bool,
    showHints: bool,
    showBlank: bool,
    showTime: bool,
    blankChar: char,
    keepHistory: bool,
    showScores: bool,
    inactiveShutoff: int,
    hintPercentage: real,
    reduction: real,
    waitTime: real,
    fuzzy: bool,
    defaultPoints: int,
    randomize: bool,
    emptyEnds: bool)

  /**
   * Where `__init__` takes its clues from: the random batches, or the
   * responses for a list of `categories` category ids (`start` creates a
   * game only for a non-empty list).
   */
  datatype Source = RandomClues(batches: seq<Batch>) | CategoryClues(categories: nat, responses: seq<CategoryResponse>)

  predicate SourceOk(source: Source) {
    source.CategoryClues? ==> source.categories >= 1
  }

  /** The filter's view of the settings and the channel history. */
  function ClueContext(cfg: Settings, history: seq<int>): Context {
    Context(history, cfg.keepHistory, cfg.defaultPoints)
  }

  /**
   * The pool `__init__` acquires, before it is arranged: distinct valid clues
   * not in the kept history, each delivered by the service; the random
   * branch, and the category branch over several categories, accept at most
   * `numClues`.
   */
  function Acquired(source: Source, cfg: Settings, shuffle: bool, history: seq<int>): (r: seq<Clue>)
    requires SourceOk(source)
    ensures PoolOk(r, ClueContext(cfg, history))
    ensures source.RandomClues? ==> FromBatches(r, source.batches, ClueContext(cfg, history)) && |r| <= Max0(cfg.numClues)
    ensures source.CategoryClues? ==> FromResponses(r, source.responses, ClueContext(cfg, history))
    ensures source.CategoryClues? && source.categories > 1 ==> |r| <= Max0(cfg.numClues)
  {
    var ctx := ClueContext(cfg, history);
    match source
    case RandomClues(batches) =>
      RandomPoolFromBatches(batches, 0, [], cfg.numClues, cfg.emptyEnds, ctx);
      RandomPool(batches, 0, [], cfg.numClues, cfg.emptyEnds, ctx)
    case CategoryClues(categories, responses) =>
      CategoryPool(responses, 0, 0, [], cfg.numClues, shuffle, 0, categories, ctx)
  }

  /**
   * Where `__init__` leaves the pool: the acquired pool `arranged` (reversed
   * unless shuffled, a permutation either way), and its last clue popped
   * and asked, leaving `questions`, with `asked` clues asked and `first` the
   * asked clue's id.
   */
  ghost predicate Started(acquired: seq<Clue>, shuffled: bool, arranged: seq<Clue>, questions: seq<Clue>, asked: int, first: int) {
    && |arranged| == |acquired| && multiset(arranged) == multiset(acquired)
    && (!shuffled ==> arranged == Reverse(acquired))
    && (arranged == [] ==> questions == [] && asked == 0)
    && (arranged != [] ==> questions == arranged[..|arranged| - 1] && asked == 1 && first == arranged[|arranged| - 1].id)
  }

  /** The clue on top of the stack has an answer whose variant split raises (a `(` with no `)` after it). */
  predicate Unsplittable(questions: seq<Clue>) {
    questions != [] && Variants(StripCountMarkers(questions[|questions| - 1].answer)).None?
  }

  /**
   * How `__init__` leaves the game it laid `arranged` out for: an empty pool
   * has stopped it (deactivated, or with the restart pending), and a first
   * clue whose answer splits is open at once.
   */
  predicate Launched(arranged: seq<Clue>, active: bool, correct: bool, restartPending: bool) {
    && (arranged == [] ==> !active || restartPending)
    && (arranged != [] && !Unsplittable(arranged) ==> !correct)
  }

  /** Unshuffled, the first clue asked is the first one acquired, and the rest are asked in acquisition order. */
  lemma FirstAcquiredFirst(acquired: seq<Clue>, arranged: seq<Clue>, questions: seq<Clue>, asked: int, first: int)
    requires Started(acquired, false, arranged, questions, asked, first) && acquired != []
    ensures first == acquired[0].id && questions == Reverse(acquired[1..])
  {
    PopReversed(acquired);
  }

  /** The acquisition loops of `__init__`: the random branch or the category branch, by the source. */
  method Acquire(source: Source, cfg: Settings, shuffle: bool, history: seq<int>) returns (pool: seq<Clue>)
    requires SourceOk(source)
    ensures pool == Acquired(source, cfg, shuffle, history)
  {
    match source
    case RandomClues(batches) =>
      pool := AcquireRandom(batches, cfg.numClues, cfg.emptyEnds, ClueContext(cfg, history));
    case CategoryClues(categories, responses) =>
      pool := AcquireCategories(responses, categories, cfg.numClues, shuffle, ClueContext(cfg, history));
  }

  /**
   * The clue being asked: its id, its points as drawn (`points`) and as
   * reduced by hints so far (`p`), the hints given, the letters and digits
   * not yet shared out (`divider`), the answer and its variants (`answers`),
   * the blanked answer, the hint last shown, and the hint being built with
   * the positions not yet tried (`show`, `revealed`; empty until the first
   * revealing hint).
   */
  datatype Current = Current(
    id: int,
    p: int,
    points: int,
    hints: int,
    divider: int,
    answers: seq<string>,
    blank: string,
    hint: string,
    show: string,
    revealed: seq<int>)

  /** The clue's variants start with the answer, its blanked form is the answer's, and its hint only ever shows answer characters where blanks were. */
  predicate CurrentOk(c: Current, blankChar: char) {
    && |c.answers| >= 1 && c.blank == Blank(c.answers[0], blankChar)
    && |c.hint| == |c.blank| && Reveals(c.blank, c.hint, c.answers[0], blankChar)
    && (c.show == [] ==> c.hint == c.blank && c.revealed == [])
    && (c.show != [] ==> c.show == c.hint)
    && Candidates(c.revealed, |c.show|)
  }

  class Game {
    const cfg: Settings
    var active: bool
    var correct: bool
    var answered: int
    var unanswered: int
    var num: int
    var numAsked: int
    var total: int
    /** The pool; the next clue is the last one. */
    var questions: seq<Clue>
    /** The clue being asked, with its hint state. */
    var clue: Current
    var scores: Table
    var roundscores: Table
    var history: seq<int>
    var timers: set<Timer>
    var clueAction: ClueAction
    var endTime: real
    /** What the score and history files hold after the last `write`. */
    var scoreFile: string
    var historyFile: string
    /** The round's top finishers the last `stop` announced. */
    var finishers: Table
    /** The pool as `__init__` arranged it, before the first clue was popped. */
    ghost var arranged: seq<Clue>


    /** The stack and the counters agree: `num` clues left, `numAsked` asked, `total` in all. */
    predicate Counters()
      reads this`num, this`questions, this`numAsked, this`total, this`answered, this`unanswered
    {
      && num == |questions| && 0 <= numAsked && num + numAsked == total
      && 0 <= answered <= numAsked && 0 <= unanswered
    }

    predicate TablesOk()
      reads this`scores, this`roundscores
    {
      DistinctKeys(scores) && NamesOk(scores) && DistinctKeys(roundscores) && NamesOk(roundscores)
    }

    /** An open clue belongs to an active game, is counted as asked and not yet as answered. */
    predicate OpenOk()
      reads this`correct, this`active, this`answered, this`numAsked, this`clue
    {
      !correct ==> active && answered < numAsked && CurrentOk(clue, cfg.blankChar)
    }

    /** A pending `clue_` event: the prepared next clue, or the restart after the files were written. */
    predicate PendingOk()
      reads this`timers, this`clueAction, this`correct, this`active, this`answered, this`numAsked
      reads this`clue, this`scoreFile, this`scores
    {
      && (ClueTimer in timers && clueAction == AskNext ==> active && correct && answered < numAsked && CurrentOk(clue, cfg.blankChar))
      && (ClueTimer in timers && clueAction == RestartGame ==> active && correct && scoreFile == FormatScores(scores))
    }

    predicate Valid()
      reads this
    {
      Counters() && TablesOk() && OpenOk() && PendingOk()
    }

    /**
     * `Game.__init__`: a fresh session over the score file's table, the
     * channel history (read from the history file when kept and not yet in
     * memory) and the pool acquired from `source`, shuffled with the draws
     * `order` when `shuffle` or `randomize` is set and reversed otherwise;
     * then the first clue, or `stop` when the pool is empty.
     */
    constructor (cfg: Settings, scoreText: string, historyText: string, history: seq<int>, source: Source, shuffle: bool,
                 now: real, order: seq<nat>, draws: seq<nat>)
      requires LoadScores(scoreText).Some?
      requires cfg.keepHistory && history == [] ==> LoadHistory(historyText).Some?
      requires SourceOk(source)
      ensures Valid()
      ensures this.cfg == cfg && scores == LoadScores(scoreText).value && roundscores == []
      ensures answered == 0 && unanswered == 0
      ensures var h := if cfg.keepHistory && history == [] then LoadHistory(historyText).value else history;
        && this.history == h + (if cfg.keepHistory && !correct then [clue.id] else [])
        && total == |arranged| && Started(Acquired(source, cfg, shuffle, h), shuffle || cfg.randomize, arranged, questions, numAsked, clue.id)
      ensures Launched(arranged, active, correct, ClueTimer in timers && clueAction == RestartGame)
    {
      this.cfg := cfg;
      active := true;
      answered := 0;
      correct := true;
      num := cfg.numClues;
      numAsked := 0;
      questions := [];
      roundscores := [];
      total := cfg.numClues;
      unanswered := 0;
      this.history := if cfg.keepHistory && history == [] then LoadHistory(historyText).value else history;
      scores := LoadScores(scoreText).value;
      clue := Current(0, 0, 0, 0, 0, [], "", "", "", []);
      timers, clueAction, endTime := {}, AskNext, 0.0;
      scoreFile, historyFile, finishers := scoreText, historyText, [];
      arranged := [];
      new;
      LoadScoresOk(scoreText);
      Begin(source, shuffle, now, order, draws);
    }

    /**
     * The rest of `__init__` once the files are read: acquire the pool from
     * `source`, shuffle it with the draws `order` when `shuffle` or
     * `randomize` is set and reverse it otherwise, and start on it.
     */
    method Begin(source: Source, shuffle: bool, now: real, order: seq<nat>, draws: seq<nat>)
      requires TablesOk() && active && correct && answered == 0 && numAsked == 0 && unanswered == 0 && ClueTimer !in timers
      requires SourceOk(source)
      modifies this
      ensures Valid()
      ensures answered == 0 && unanswered == 0 && scores == old(scores) && roundscores == old(roundscores)
      ensures history == old(history) + (if cfg.keepHistory && !correct then [clue.id] else [])
      ensures total == |arranged|
      ensures Started(Acquired(source, cfg, shuffle, old(history)), shuffle || cfg.randomize, arranged, questions, numAsked, clue.id)
      ensures Launched(arranged, active, correct, ClueTimer in timers && clueAction == RestartGame)
    {
      var acquired := Acquire(source, cfg, shuffle, history);
      var pool := Arrange(acquired, shuffle || cfg.randomize, order);
      Lay(pool, now, draws);
    }

    /** `questions`, `total` and `num` from the arranged pool, then `stop` or the first clue. */
    method Lay(pool: seq<Clue>, now: real, draws: seq<nat>)
      requires TablesOk() && active && correct && answered == 0 && numAsked == 0 && unanswered == 0 && ClueTimer !in timers
      modifies this
      ensures Valid()
      ensures arranged == pool && total == |pool| && answered == 0 && unanswered == 0
      ensures scores == old(scores) && roundscores == old(roundscores)
      ensures history == old(history) + (if cfg.keepHistory && !correct then [clue.id] else [])
      ensures pool == [] ==> questions == [] && numAsked == 0
      ensures pool != [] ==> questions == pool[..|pool| - 1] && numAsked == 1 && clue.id == pool[|pool| - 1].id
      ensures Launched(pool, active, correct, ClueTimer in timers && clueAction == RestartGame)
    {
      arranged := pool;
      questions := pool;
      total := |pool|;
      num := |pool|;
      Deal(now, draws);
    }

    /** The end of `__init__`: `stop` if the pool is empty, the first clue otherwise. */
    method Deal(now: real, draws: seq<nat>)
      requires Counters() && TablesOk() && active && correct && answered == 0 && numAsked == 0 && unanswered == 0
      requires ClueTimer !in timers
      modifies this`num, this`numAsked, this`questions, this`clue, this`timers, this`clueAction, this`correct
      modifies this`history, this`endTime, this`scoreFile, this`historyFile, this`finishers, this`active
      ensures Valid()
      ensures history == old(history) + (if cfg.keepHistory && !correct then [clue.id] else [])
      ensures old(questions) == [] ==> questions == [] && numAsked == 0
      ensures old(questions) != [] ==>
        questions == old(questions[..|questions| - 1]) && numAsked == 1 && clue.id == old(questions[|questions| - 1].id)
      ensures Launched(old(questions), active, correct, ClueTimer in timers && clueAction == RestartGame)
    {
      if num == 0 {
        Stop();
      } else {
        var raised := NewQuestion(now, draws);
      }
    }

    /** `clear`: remove the three named events. */
    method Clear()
      modifies this`timers
      ensures timers == {}
    {
      timers := {};
    }

    /**
     * `newquestion`: a no-op while inactive; otherwise stop when no clue is
     * left to ask (or every asked clue is answered), stop and deactivate after
     * more than `inactiveShutoff` clues in a row went unanswered, and
     * otherwise pop the next clue and open it now or after the delay.
     * `raised` is true where the variant split raises, which ends the caller too.
     */
    method NewQuestion(now: real, draws: seq<nat>) returns (raised: bool)
      requires Valid() && correct
      modifies this`num, this`numAsked, this`questions, this`clue, this`timers, this`clueAction, this`correct
      modifies this`history, this`endTime, this`scoreFile, this`historyFile, this`finishers, this`active
      ensures Valid()
      ensures !old(active) ==> unchanged(this)
      ensures answered == old(answered) && unanswered == old(unanswered) && total == old(total)
      ensures scores == old(scores) && roundscores == old(roundscores)
      ensures history == old(history) + (if cfg.keepHistory && !correct then [clue.id] else [])
      ensures old(active) && old(num == 0 || answered == total || numAsked == total) ==>
        && num == old(num) && numAsked == old(numAsked) && questions == old(questions)
        && (!active || (ClueTimer in timers && clueAction == RestartGame))
      ensures old(active && !(num == 0 || answered == total || numAsked == total) && unanswered > cfg.inactiveShutoff > 0) ==>
        num == old(num) && numAsked == old(numAsked) && questions == old(questions) && !active
      ensures old(active && !(num == 0 || answered == total || numAsked == total) && !(unanswered > cfg.inactiveShutoff > 0)) ==>
        && num == old(num) - 1 && numAsked == old(numAsked) + 1
        && questions == old(questions[..|questions| - 1]) && clue.id == old(questions[|questions| - 1].id)
      ensures old(active && numAsked == 0 && !(num == 0 || answered == total) && !(unanswered > cfg.inactiveShutoff > 0) && !Unsplittable(questions)) ==>
        !correct
      ensures raised <==>
        old(active && !(num == 0 || answered == total || numAsked == total) && !(unanswered > cfg.inactiveShutoff > 0)) && Unsplittable(old(questions))
    {
      raised := false;
      if !active {
        return;
      }
      Clear();
      raised := Proceed(now, draws);
    }

    /** `newquestion` on an active game once the events are cleared: `stop`, the shutoff, or the next clue. */
    method Proceed(now: real, draws: seq<nat>) returns (raised: bool)
      requires Valid() && active && correct && timers == {}
      modifies this`num, this`numAsked, this`questions, this`clue, this`timers, this`clueAction, this`correct
      modifies this`history, this`endTime, this`scoreFile, this`historyFile, this`finishers, this`active
      ensures Valid()
      ensures answered == old(answered) && unanswered == old(unanswered) && total == old(total)
      ensures scores == old(scores) && roundscores == old(roundscores)
      ensures history == old(history) + (if cfg.keepHistory && !correct then [clue.id] else [])
      ensures old(num == 0 || answered == total || numAsked == total) ==>
        && num == old(num) && numAsked == old(numAsked) && questions == old(questions)
        && (!active || (ClueTimer in timers && clueAction == RestartGame))
      ensures old(!(num == 0 || answered == total || numAsked == total) && unanswered > cfg.inactiveShutoff > 0) ==>
        num == old(num) && numAsked == old(numAsked) && questions == old(questions) && !active
      ensures old(!(num == 0 || answered == total || numAsked == total) && !(unanswered > cfg.inactiveShutoff > 0)) ==>
        && num == old(num) - 1 && numAsked == old(numAsked) + 1
        && questions == old(questions[..|questions| - 1]) && clue.id == old(questions[|questions| - 1].id)
      ensures old(numAsked == 0 && !(num == 0 || answered == total) && !(unanswered > cfg.inactiveShutoff > 0) && !Unsplittable(questions)) ==>
        !correct
      ensures raised <==>
        old(!(num == 0 || answered == total || numAsked == total) && !(unanswered > cfg.inactiveShutoff > 0)) && Unsplittable(old(questions))
    {
      raised := false;
      if num == 0 || answered == total || numAsked == total {
        Stop();
        return;
      } else if unanswered > cfg.inactiveShutoff && cfg.inactiveShutoff > 0 {
        Shutoff();
        return;
      }
      // with `num == len(questions)` the plugin's empty-pool check is covered by `num == 0`
      raised := Ask(now, draws);
    }

    /** Too many clues in a row went unanswered: deactivate and `stop`, with no restart. */
    method Shutoff()
      requires Counters() && TablesOk()
      modifies this`scoreFile, this`historyFile, this`timers, this`clueAction, this`finishers, this`active, this`correct
      ensures Valid() && !active && correct && timers == {}
      ensures scoreFile == FormatScores(scores)
      ensures historyFile == if cfg.keepHistory then FormatHistory(history) else old(historyFile)
      ensures finishers == if cfg.showScores then TopFinishers(roundscores) else old(finishers)
    {
      correct := true;
      active := false;
      Stop();
    }

    /**
     * The rest of `newquestion`: pop the next clue, then open it at once for
     * the first clue or without a delay, or schedule `next_question` after
     * the delay. `raised` is true where the variant split raises.
     */
    method Ask(now: real, draws: seq<nat>) returns (raised: bool)
      requires Valid() && active && correct && num > 0 && timers == {}
      modifies this`num, this`numAsked, this`questions, this`clue, this`timers, this`clueAction
      modifies this`correct, this`history, this`endTime
      ensures Valid() && active
      ensures num == old(num) - 1 && numAsked == old(numAsked) + 1
      ensures questions == old(questions[..|questions| - 1]) && clue.id == old(questions[|questions| - 1].id)
      ensures Variants(StripCountMarkers(old(questions[|questions| - 1].answer))).Some? ==>
        && (ClueTimer in timers <==> numAsked > 1 && cfg.delay > 0)
        && (ClueTimer !in timers ==> !correct)
      ensures Variants(StripCountMarkers(old(questions[|questions| - 1].answer))).None? ==> correct && timers == {}
      ensures history == old(history) + (if cfg.keepHistory && !correct then [clue.id] else [])
      ensures raised <==> Unsplittable(old(questions))
      ensures var q := old(questions[|questions| - 1]);
        && clue.p == clue.points == q.points && clue.divider == AlnumCount(StripCountMarkers(q.answer))
        && |clue.answers| >= 1 && clue.answers[0] == StripCountMarkers(q.answer) && clue.hint == clue.blank
        && (!raised ==> clue.answers == Variants(clue.answers[0]).value)
    {
      var ready := Pop();
      raised := !ready;
      if !ready {
        // the variant split raised: the clue stays unopened and nothing is scheduled
        return;
      }
      if numAsked > 1 && cfg.delay > 0 {
        timers := timers + {ClueTimer};
        clueAction := AskNext;
      } else {
        NextQuestion(now, draws);
      }
    }

    /**
     * The body of `newquestion` once no stop condition holds: pop the last
     * clue, take its points, strip the "(N of)" markers from its answer, count
     * the answer's letters and digits, blank it out, and split off the
     * variants. `ready` is false where the split raises.
     */
    method Pop() returns (ready: bool)
      requires Counters() && num > 0
      modifies this`num, this`numAsked, this`questions, this`clue
      ensures Counters() && CurrentOk(clue, cfg.blankChar)
      ensures num == old(num) - 1 && numAsked == old(numAsked) + 1
      ensures questions == old(questions[..|questions| - 1])
      ensures var q := old(questions[|questions| - 1]);
        && clue.id == q.id && clue.p == q.points && clue.points == q.points && clue.hints == 0
        && clue.answers[0] == StripCountMarkers(q.answer)
        && clue.divider == AlnumCount(clue.answers[0])
        && clue.hint == clue.blank && clue.show == [] && clue.revealed == []
        && ready == Variants(clue.answers[0]).Some?
        && (ready ==> clue.answers == Variants(clue.answers[0]).value)
    {
      num := num - 1;
      numAsked := numAsked + 1;
      var q := questions[|questions| - 1];
      questions := questions[..|questions| - 1];
      var a := StripCountMarkers(q.answer);
      var blank := Blank(a, cfg.blankChar);
      var answers := [a];
      ready := false;
      match Variants(a) {
        case None =>
        case Some(vs) =>
          answers := vs;
          ready := true;
      }
      clue := Current(q.id, q.points, q.points, 0, AlnumCount(a), answers, blank, blank, "", []);
    }

    /**
     * `next_question`: open the clue, add it to the channel history, and
     * schedule the timeout; with `showBlank` the blanked answer is shown at
     * once, otherwise the first timed reply is scheduled if it falls before
     * the timeout.
     */
    method NextQuestion(now: real, draws: seq<nat>)
      requires Valid() && active && CurrentOk(clue, cfg.blankChar) && answered < numAsked
      modifies this`timers, this`correct, this`history, this`endTime, this`clue
      ensures Valid() && !correct
      ensures history == old(history) + (if cfg.keepHistory then [clue.id] else [])
      ensures cfg.timeout > 0 ==> EndTimer in timers && endTime == now + cfg.timeout as real
      ensures cfg.timeout <= 0 ==> EndTimer !in timers
      ensures ClueTimer !in timers
      ensures clue.id == old(clue.id) && clue.answers == old(clue.answers)
      ensures clue.hints == old(clue.hints) + if cfg.showBlank then 1 else 0
      ensures old(clue.hints) == 0 ==> clue == old(clue).(hints := clue.hints)
      ensures EventTimer in timers <==> cfg.timeout > 0 && (cfg.showHints || cfg.showTime) && now + cfg.waitTime < endTime
    {
      Clear();
      correct := false;
      Record();
      if cfg.timeout > 0 {
        endTime := now + cfg.timeout as real;
        timers := timers + {EndTimer};
      }
      // `hint` when the blank is shown at once; otherwise, with a timeout, the first timed reply
      if cfg.showBlank {
        Hint(now, draws);
      } else if cfg.timeout > 0 {
        ScheduleReply(now);
      }
    }

    /** The channel history records the opened clue when it is kept. */
    method Record()
      modifies this`history
      ensures history == old(history) + if cfg.keepHistory then [clue.id] else []
    {
      if cfg.keepHistory {
        history := history + [clue.id];
      }
    }

    /** The timed reply is scheduled `waitTime` after `now` when hints or the time are shown and it falls before the timeout. */
    method ScheduleReply(now: real)
      modifies this`timers
      ensures timers == old(timers) + if (cfg.showHints || cfg.showTime) && now + cfg.waitTime < endTime then {EventTimer} else {}
    {
      if (cfg.showHints || cfg.showTime) && now + cfg.waitTime < endTime {
        timers := timers + {EventTimer};
      }
    }

    /**
     * `hint`: a no-op unless a clue is open. From the second call on and up
     * to `numHints`, a share `round(divider * hintPercentage)` of the letters
     * still counted in `divider` is revealed; every call that changes the hint
     * after the first costs `round(p * reduction, -1)` points. Each call
     * counts one hint and schedules the next timed reply if it falls before
     * the timeout.
     */
    method Hint(now: real, draws: seq<nat>)
      requires Valid()
      modifies this`timers, this`clue
      ensures Valid()
      ensures !old(active) || old(correct) ==> unchanged(this)
      ensures clue.id == old(clue.id) && clue.answers == old(clue.answers)
      ensures old(active) && !old(correct) ==>
        && clue.hints == old(clue.hints) + 1
        && |clue.hint| == |old(clue.hint)| == |clue.answers[0]|
        && Reveals(old(clue.hint), clue.hint, clue.answers[0], cfg.blankChar)
        && (!(0 < old(clue.hints) <= cfg.numHints) ==> clue.hint == old(clue.hint))
        && (0 < old(clue.hints) <= cfg.numHints ==>
              Changed(old(clue.hint), clue.hint) <= Max0(Share(old(clue.divider), cfg.hintPercentage)))
        && clue.p == old(clue.p) - (if old(clue.hints) > 0 && clue.hint != old(clue.hint) then Penalty(old(clue.p), cfg.reduction) else 0)
      ensures clue.points == old(clue.points) && clue.blank == old(clue.blank)
      ensures old(active) && !old(correct) && !(0 < old(clue.hints) <= cfg.numHints) ==> clue.divider == old(clue.divider)
      ensures old(active) && !old(correct) && 0 < old(clue.hints) <= cfg.numHints ==>
        clue.divider == old(clue.divider) - Share(old(clue.divider), cfg.hintPercentage)
      ensures old(clue.hints) == 0 ==> clue == old(clue).(hints := clue.hints)
      ensures old(active) && !old(correct) ==>
        (EventTimer in timers <==> cfg.timeout > 0 && (cfg.showHints || cfg.showTime) && now + cfg.waitTime < endTime)
      ensures ClueTimer in timers <==> ClueTimer in old(timers)
      ensures EndTimer in timers <==> EndTimer in old(timers)
    {
      if !active || correct {
        return;
      }
      timers := timers - {EventTimer};
      clue := NextHint(clue, cfg, draws);
      if cfg.timeout > 0 {
        ScheduleReply(now);
      }
    }

    /**
     * `timedEvent`, run when the `event_` event fires: while a clue is open
     * and a timeout is set, the next hint, or with `showTime` the next
     * time reply, scheduled again if it falls before the timeout.
     */
    method TimedEvent(now: real, draws: seq<nat>)
      requires Valid()
      modifies this`timers, this`clue
      ensures Valid()
      ensures !old(active) || cfg.timeout == 0 || old(correct) ==> timers == old(timers) - {EventTimer} && clue == old(clue)
      ensures old(active) && cfg.timeout != 0 && !old(correct) && cfg.showHints ==> clue.hints == old(clue.hints) + 1
      ensures !cfg.showHints ==> clue == old(clue)
    {
      timers := timers - {EventTimer};
      if !active || cfg.timeout == 0 || correct {
        return;
      }
      if cfg.showHints {
        Hint(now, draws);
      } else if cfg.showTime {
        if cfg.timeout > 0 {
          ScheduleReply(now);
        }
      }
    }

    /**
     * `end`: a no-op unless a clue is open; otherwise the clue is resolved
     * as unanswered (both `answered` and `unanswered` go up by one) and the
     * next clue follows. `raised` is true where that next clue's variant
     * split raises, which ends the caller too.
     */
    method End(now: real, draws: seq<nat>) returns (raised: bool)
      requires Valid()
      modifies this
      ensures Valid()
      ensures !old(active) || old(correct) ==> unchanged(this)
      ensures old(active) && !old(correct) ==>
        answered == old(answered) + 1 && unanswered == old(unanswered) + 1
      ensures total == old(total) && scores == old(scores) && roundscores == old(roundscores)
      ensures raised <==>
        old(active && !correct && !(num == 0 || answered + 1 == total || numAsked == total) && !(unanswered + 1 > cfg.inactiveShutoff > 0)) &&
        Unsplittable(old(questions))
      ensures old(active && !correct && !(num == 0 || answered + 1 == total || numAsked == total) && !(unanswered + 1 > cfg.inactiveShutoff > 0)) ==>
        && num == old(num) - 1 && numAsked == old(numAsked) + 1
        && questions == old(questions[..|questions| - 1]) && clue.id == old(questions[|questions| - 1].id)
      ensures old(active && !correct && (num == 0 || answered + 1 == total || numAsked == total || unanswered + 1 > cfg.inactiveShutoff > 0)) ==>
        num == old(num) && numAsked == old(numAsked) && questions == old(questions)
    {
      raised := false;
      if !active || correct {
        return;
      }
      correct := true;
      unanswered := unanswered + 1;
      answered := answered + 1;
      Clear();
      raised := NewQuestion(now, draws);
    }

    /** The `end_` event firing: the event is used up, then `end` runs. */
    method Timeout(now: real, draws: seq<nat>)
      requires Valid()
      modifies this
      ensures Valid()
      ensures old(active) && !old(correct) ==>
        answered == old(answered) + 1 && unanswered == old(unanswered) + 1
      ensures !old(active) || old(correct) ==> answered == old(answered) && unanswered == old(unanswered)
      ensures scores == old(scores) && roundscores == old(roundscores)
      ensures old(active && !correct && !(num == 0 || answered + 1 == total || numAsked == total) && !(unanswered + 1 > cfg.inactiveShutoff > 0)) ==>
        && num == old(num) - 1 && numAsked == old(numAsked) + 1
        && questions == old(questions[..|questions| - 1]) && clue.id == old(questions[|questions| - 1].id)
      ensures old(active && !correct && (num == 0 || answered + 1 == total || numAsked == total || unanswered + 1 > cfg.inactiveShutoff > 0)) ==>
        num == old(num) && numAsked == old(numAsked) && questions == old(questions)
      ensures !old(active) || old(correct) ==> num == old(num) && numAsked == old(numAsked) && questions == old(questions)
    {
      timers := timers - {EndTimer};
      var raised := End(now, draws);
    }

    /**
     * The `skip` command on an active game: `end`, then the unanswered
     * tally `end` added is taken back, only when `end` acted; the tally
     * after the skip is the one before it. The inactivity check inside
     * `end`'s `newquestion` runs before the tally is taken back.
     */
    method Skip(now: real, draws: seq<nat>)
      requires Valid()
      modifies this
      ensures Valid()
      ensures unanswered == old(unanswered)
      ensures old(active) && !old(correct) ==> answered == old(answered) + 1
      ensures !old(active) || old(correct) ==> answered == old(answered)
      ensures scores == old(scores) && roundscores == old(roundscores)
      ensures old(active && !correct && !(num == 0 || answered + 1 == total || numAsked == total) && !(unanswered + 1 > cfg.inactiveShutoff > 0)) ==>
        && num == old(num) - 1 && numAsked == old(numAsked) + 1
        && questions == old(questions[..|questions| - 1]) && clue.id == old(questions[|questions| - 1].id)
      ensures old(active && !correct && (num == 0 || answered + 1 == total || numAsked == total || unanswered + 1 > cfg.inactiveShutoff > 0)) ==>
        num == old(num) && numAsked == old(numAsked) && questions == old(questions)
      ensures !old(active) || old(correct) ==> num == old(num) && numAsked == old(numAsked) && questions == old(questions)
    {
      if active {
        var acted := !correct;
        var raised := End(now, draws);
        if acted {
          unanswered := unanswered - 1;
        }
      }
    }

    /**
     * `skip` as written: `end`, then the unanswered tally goes down by one
     * whether `end` acted or not. While the next clue waits out its delay
     * after a correct answer (`clue_` pending with no clue open, the tally
     * at 0), a skip drives the tally to -1. Where the variant split of the
     * clue `end` moves on to raises (`raised`), the exception leaves the
     * command before the decrement, and the tally stays one up.
     */
    method SkipAsWritten(now: real, draws: seq<nat>) returns (raised: bool)
      requires Valid()
      modifies this
      ensures raised <==>
        old(active && !correct && !(num == 0 || answered + 1 == total || numAsked == total) && !(unanswered + 1 > cfg.inactiveShutoff > 0)) &&
        Unsplittable(old(questions))
      ensures !old(active) ==> unanswered == old(unanswered)
      ensures old(active) && !old(correct) ==>
        unanswered == old(unanswered) + (if raised then 1 else 0) && answered == old(answered) + 1
      ensures old(active) && old(correct) ==> unanswered == old(unanswered) - 1 && answered == old(answered)
      ensures old(ClueTimer in timers && clueAction == AskNext && unanswered == 0) ==> unanswered == -1
      ensures old(active && !correct && !(num == 0 || answered + 1 == total || numAsked == total) && !(unanswered + 1 > cfg.inactiveShutoff > 0)) ==>
        && num == old(num) - 1 && numAsked == old(numAsked) + 1
        && questions == old(questions[..|questions| - 1]) && clue.id == old(questions[|questions| - 1].id)
      ensures old(active && !correct && (num == 0 || answered + 1 == total || numAsked == total || unanswered + 1 > cfg.inactiveShutoff > 0)) ==>
        num == old(num) && numAsked == old(numAsked) && questions == old(questions)
      ensures !old(active) || old(correct) ==> num == old(num) && numAsked == old(numAsked) && questions == old(questions)
    {
      raised := false;
      if active {
        raised := End(now, draws);
        if !raised {
          unanswered := unanswered - 1;
        }
      }
    }

    /**
     * `answer`: a no-op unless a clue is open. A guess any variant accepts
     * credits the guesser with the clue's current points in both the round
     * and the overall table, resets the unanswered tally, counts the clue
     * as answered, and the next clue follows.
     */
    method Answer(nick: string, guess: string, similar: (string, string) -> bool, now: real, draws: seq<nat>)
      returns (won: bool)
      requires Valid() && NameOk(nick)
      modifies this
      ensures Valid()
      ensures won <==> (old(active) && !old(correct) &&
        exists k :: 0 <= k < |old(clue.answers)| && Accepts(old(clue.answers)[k], guess, cfg.fuzzy, similar))
      ensures !won ==> unchanged(this)
      ensures won ==>
        && scores == Credit(old(scores), nick, old(clue.p))
        && roundscores == Credit(old(roundscores), nick, old(clue.p))
        && answered == old(answered) + 1 && unanswered == 0 && total == old(total)
      ensures won && old(!(num == 0 || answered + 1 == total || numAsked == total)) ==>
        && num == old(num) - 1 && numAsked == old(numAsked) + 1
        && questions == old(questions[..|questions| - 1]) && clue.id == old(questions[|questions| - 1].id)
      ensures won && old(num == 0 || answered + 1 == total || numAsked == total) ==>
        num == old(num) && numAsked == old(numAsked) && questions == old(questions)
    {
      won := false;
      if !active || correct {
        return;
      }
      won := Matches(clue.answers, guess, cfg.fuzzy, similar);
      if won {
        Win(nick, now, draws);
      }
    }

    /**
     * The winning branch of `answer`: credit `nick` with the clue's points in
     * both tables, reset the unanswered tally, count the clue as answered,
     * and go on to the next clue.
     */
    method Win(nick: string, now: real, draws: seq<nat>)
      requires Valid() && active && !correct && NameOk(nick)
      modifies this
      ensures Valid()
      ensures scores == Credit(old(scores), nick, old(clue.p))
      ensures roundscores == Credit(old(roundscores), nick, old(clue.p))
      ensures answered == old(answered) + 1 && unanswered == 0 && total == old(total)
      ensures old(!(num == 0 || answered + 1 == total || numAsked == total)) ==>
        && num == old(num) - 1 && numAsked == old(numAsked) + 1
        && questions == old(questions[..|questions| - 1]) && clue.id == old(questions[|questions| - 1].id)
      ensures old(num == 0 || answered + 1 == total || numAsked == total) ==>
        num == old(num) && numAsked == old(numAsked) && questions == old(questions)
    {
      Award(nick);
      var raised := NewQuestion(now, draws);
    }

    /** The credits and tallies of a win, and `clear`: the clue is resolved and nothing is pending. */
    method Award(nick: string)
      requires Valid() && active && !correct && NameOk(nick)
      modifies this`scores, this`roundscores, this`unanswered, this`correct, this`answered, this`timers
      ensures Valid() && correct && timers == {}
      ensures scores == Credit(old(scores), nick, old(clue.p))
      ensures roundscores == Credit(old(roundscores), nick, old(clue.p))
      ensures answered == old(answered) + 1 && unanswered == 0
    {
      var p := clue.p;
      CreditKeeps(scores, nick, p);
      CreditKeeps(roundscores, nick, p);
      scores, roundscores, unanswered, correct, answered, timers :=
        Credit(scores, nick, p), Credit(roundscores, nick, p), 0, true, answered + 1, {};
    }

    /** `write`: the score table, and the history when kept, in their file formats. */
    method Write()
      modifies this`scoreFile, this`historyFile
      ensures scoreFile == FormatScores(scores)
      ensures historyFile == if cfg.keepHistory then FormatHistory(history) else old(historyFile)
    {
      scoreFile := FormatScores(scores);
      if cfg.keepHistory {
        historyFile := FormatHistory(history);
      }
    }

    /**
     * `stop`: write the files, cancel the events, announce the round's top
     * three when scores are shown, and then either schedule the restart
     * (restart on and still active) or leave the game inactive with no clue
     * open.
     */
    method Stop()
      requires Counters() && TablesOk() && correct
      modifies this`scoreFile, this`historyFile, this`timers, this`clueAction, this`finishers, this`active, this`correct
      ensures Valid()
      ensures scoreFile == FormatScores(scores)
      ensures historyFile == if cfg.keepHistory then FormatHistory(history) else old(historyFile)
      ensures finishers == if cfg.showScores then TopFinishers(roundscores) else old(finishers)
      ensures cfg.restart && old(active) ==> active && correct && timers == {ClueTimer} && clueAction == RestartGame
      ensures !(cfg.restart && old(active)) ==> !active && correct && timers == {}
    {
      Write();
      Finish();
    }

    /** The end of `stop` once the files are written: the events cancelled, the scoreboard, then the restart or the deactivation. */
    method Finish()
      requires Counters() && TablesOk() && correct && scoreFile == FormatScores(scores)
      modifies this`timers, this`clueAction, this`finishers, this`active, this`correct
      ensures Valid()
      ensures finishers == if cfg.showScores then TopFinishers(roundscores) else old(finishers)
      ensures cfg.restart && old(active) ==> active && correct && timers == {ClueTimer} && clueAction == RestartGame
      ensures !(cfg.restart && old(active)) ==> !active && correct && timers == {}
    {
      Clear();
      Announce();
      Close();
    }

    /** The scoreboard `stop` announces when scores are shown: the round's top three. */
    method Announce()
      modifies this`finishers
      ensures finishers == if cfg.showScores then TopFinishers(roundscores) else old(finishers)
    {
      if cfg.showScores {
        finishers := TopFinishers(roundscores);
      }
    }

    /** The end of `stop`: schedule the restart when it is on and the game still active, or else deactivate. */
    method Close()
      requires Counters() && TablesOk() && correct && timers == {} && scoreFile == FormatScores(scores)
      modifies this`timers, this`clueAction, this`active, this`correct
      ensures Valid()
      ensures cfg.restart && old(active) ==> active && correct && timers == {ClueTimer} && clueAction == RestartGame
      ensures !(cfg.restart && old(active)) ==> !active && correct && timers == {}
    {
      if cfg.restart && active {
        timers := timers + {ClueTimer};
        clueAction := RestartGame;
      } else {
        correct := true;
        active := false;
      }
    }

    /** The `stop` command: deactivate, close the clue, then `stop`; no restart follows. */
    method StopCommand()
      requires Valid()
      modifies this`scoreFile, this`historyFile, this`timers, this`clueAction, this`finishers, this`active, this`correct
      ensures Valid()
      ensures !active && correct && timers == {}
      ensures scoreFile == FormatScores(scores)
    {
      active := false;
      correct := true;
      Stop();
    }

    /**
     * The `clue_` event firing: the event is used up, then the delayed
     * `next_question` runs, or, after `stop` scheduled a restart, the game
     * starts over on a pool of random clues from `batches`.
     */
    method FireClueTimer(batches: seq<Batch>, now: real, order: seq<nat>, draws: seq<nat>)
      requires Valid() && ClueTimer in timers
      modifies this
      ensures Valid()
      ensures scores == old(scores)
      ensures old(clueAction) == AskNext ==> !correct && answered == old(answered) && numAsked == old(numAsked)
      ensures old(clueAction) == RestartGame ==>
        && roundscores == [] && answered == 0 && unanswered == 0
        && total == |arranged| && Started(Acquired(RandomClues(batches), cfg, false, old(history)), cfg.randomize, arranged, questions, numAsked, clue.id)
        && Launched(arranged, active, correct, ClueTimer in timers && clueAction == RestartGame)
    {
      timers := timers - {ClueTimer};
      if clueAction == AskNext {
        NextQuestion(now, draws);
      } else {
        Restart(batches, now, order, draws);
      }
    }

    /**
     * The restart `stop` scheduled: `__init__` again with the same settings,
     * random clues and no `--shuffle`. The overall scores are read back from
     * the file `stop` just wrote, which gives back the same table; the
     * round's table starts empty; the history stays in memory and filters
     * the new pool, which replaces the old one.
     */
    method Restart(batches: seq<Batch>, now: real, order: seq<nat>, draws: seq<nat>)
      requires TablesOk() && scoreFile == FormatScores(scores) && ClueTimer !in timers
      modifies this
      ensures Valid()
      ensures scores == old(scores) && roundscores == [] && answered == 0 && unanswered == 0
      ensures history == old(history) + (if cfg.keepHistory && !correct then [clue.id] else [])
      ensures total == |arranged| && Started(Acquired(RandomClues(batches), cfg, false, old(history)), cfg.randomize, arranged, questions, numAsked, clue.id)
      ensures Launched(arranged, active, correct, ClueTimer in timers && clueAction == RestartGame)
    {
      ScoresRoundTrip(scores);
      Reset(LoadScores(scoreFile).value);
      Begin(RandomClues(batches), false, now, order, draws);
    }

    /** The assignments `__init__` makes before acquiring the pool, with the overall table read from the score file. */
    method Reset(table: Table)
      modifies this`scores, this`active, this`answered, this`correct, this`clue, this`num, this`numAsked
      modifies this`questions, this`roundscores, this`total, this`unanswered
      ensures scores == table && roundscores == [] && questions == []
      ensures active && correct && answered == 0 && unanswered == 0 && numAsked == 0
      ensures num == cfg.numClues && total == cfg.numClues
      ensures clue == old(clue).(hint := "", points := 0)
    {
      scores := table;
      active := true;
      answered := 0;
      correct := true;
      clue := clue.(hint := "", points := 0);
      num := cfg.numClues;
      numAsked := 0;
      questions := [];
      roundscores := [];
      total := cfg.numClues;
      unanswered := 0;
    }
  }

  /**
   * The clue after one `hint`: from the second hint on and up to
   * `numHints`, a share of the letters still counted in `divider` is
   * revealed; a hint after the first that changes the hint text costs
   * `round(p * reduction, -1)` points; the hint is counted.
   */
  method NextHint(c: Current, cfg: Settings, draws: seq<nat>) returns (r: Current)
    requires CurrentOk(c, cfg.blankChar)
    ensures CurrentOk(r, cfg.blankChar)
    ensures r.id == c.id && r.points == c.points && r.answers == c.answers && r.blank == c.blank
    ensures r.hints == c.hints + 1
    ensures |r.hint| == |c.hint| && Reveals(c.hint, r.hint, c.answers[0], cfg.blankChar)
    ensures !(0 < c.hints <= cfg.numHints) ==> r.hint == c.hint && r.divider == c.divider
    ensures 0 < c.hints <= cfg.numHints ==>
      && Changed(c.hint, r.hint) <= Max0(Share(c.divider, cfg.hintPercentage))
      && r.divider == c.divider - Share(c.divider, cfg.hintPercentage)
    ensures r.p == c.p - if c.hints > 0 && r.hint != c.hint then Penalty(c.p, cfg.reduction) else 0
    ensures c.hints == 0 ==> r == c.(hints := 1)
  {
    r := c;
    if c.hints <= cfg.numHints && c.hints > 0 && cfg.numHints > 0 {
      r := RevealShare(c, cfg.blankChar, cfg.hintPercentage, draws);
    }
    if c.hints > 0 && c.hint != r.hint {
      r := r.(p := c.p - Penalty(c.p, cfg.reduction));
    }
    r := r.(hints := c.hints + 1);
  }

  /**
   * The revealing part of `hint`: take this hint's share of `divider`,
   * start the hint from the blanked answer and every position as a
   * candidate when not yet started, and run the reveal loop.
   */
  method RevealShare(c: Current, blankChar: char, hintPercentage: real, draws: seq<nat>) returns (r: Current)
    requires CurrentOk(c, blankChar)
    ensures CurrentOk(r, blankChar)
    ensures r == c.(hint := r.hint, show := r.show, revealed := r.revealed, divider := r.divider)
    ensures |r.hint| == |c.hint|
    ensures Reveals(c.hint, r.hint, c.answers[0], blankChar)
    ensures Changed(c.hint, r.hint) <= Max0(Share(c.divider, hintPercentage))
    ensures r.divider == c.divider - Share(c.divider, hintPercentage)
  {
    var ans := c.answers[0];
    var share := Share(c.divider, hintPercentage);
    var show, revealed := c.show, c.revealed;
    if show == [] {
      show := c.blank;
    }
    if revealed == [] {
      revealed := Positions(|show|);
    }
    var before := show;
    show, revealed := Reveal(show, revealed, ans, blankChar, share, draws);
    if before == [] {
      assert |revealed| == |multiset(revealed)| == 0;
    }
    RevealsTrans(c.blank, before, show, ans, blankChar);
    r := c.(divider := c.divider - share, hint := show, show := show, revealed := revealed);
  }

  function Max0(x: int): int {
    if x < 0 then 0 else x
  }
}
