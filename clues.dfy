/**
 * Building a game's question pool from the records the clue service sends:
 * the validity filter with duplicate and history exclusion, the two
 * acquisition loops (random clues, chosen categories), and the reversal or
 * shuffle that fixes the order in which clues are asked.
 *
 * The service's answers are inputs: a sequence of responses, consumed one per
 * request in the order the plugin makes them.
 */
module Clues {
  import opened Wrappers
  import opened Text

  /**
   * The fields of a service record the plugin reads. `invalidCount` and
   * `value` use 0 for a missing or null field, which the plugin treats
   * like 0 (both are falsy).
   */
  datatype Record = Record(
    id: int,
    question: string,
    answer: string,
    airdate: string,
    categoryTitle: string,
    invalidCount: int,
    value: int)

  /** A pool entry: the six fields the plugin joins with `|`. */
  datatype Clue = Clue(id: int, airdate: string, points: int, category: string, text: string, answer: string)

  /** What the filter consults besides the record: the channel history and the configuration. */
  datatype Context = Context(history: seq<int>, keepHistory: bool, defaultPoints: int)

  /** `airdate.split("T")[0]`: the part before the first `T`. */
  function AirdateDay(s: string): (r: string)
    ensures |r| <= |s| && r == s[..|r|]
    ensures 'T' !in r
    ensures |r| < |s| ==> s[|r|] == 'T'
  {
    if s == [] || s[0] == 'T' then [] else [s[0]] + AirdateDay(s[1..])
  }

  /** The clue a record becomes: stripped texts, day of the air date, capitalised category, points. */
  function ToClue(r: Record, defaultPoints: int): Clue {
    Clue(r.id, AirdateDay(r.airdate), if r.value != 0 then r.value else defaultPoints,
         Capwords(r.categoryTitle), Strip(r.question), Strip(r.answer))
  }

  /**
   * What a record's clue holds: the record's id; the air date up to its
   * first `T`; the record's value, or `defaultPoints` when it has none; the
   * category title as single-blank-separated words; the clue text and the
   * answer with no whitespace at either end.
   */
  lemma ToClueFields(r: Record, defaultPoints: int)
    ensures var c := ToClue(r, defaultPoints);
      && c.id == r.id && 'T' !in c.airdate && r.airdate == c.airdate + r.airdate[|c.airdate|..]
      && c.points == (if r.value != 0 then r.value else defaultPoints)
      && Squashed(c.category)
      && (c.text != [] ==> !IsSpace(c.text[0]) && !IsSpace(c.text[|c.text| - 1]))
      && (c.answer != [] ==> !IsSpace(c.answer[0]) && !IsSpace(c.answer[|c.answer| - 1]))
  {
    StripEnds(r.question);
    StripEnds(r.answer);
    CapwordsSquashed(r.categoryTitle);
  }

  /** The field checks of the filter: all four texts non-empty and the answer not `=`. */
  predicate ClueOk(c: Clue) {
    c.text != [] && c.airdate != [] && c.answer != [] && c.category != [] && c.answer != "="
  }

  function Ids(pool: seq<Clue>): (r: seq<int>)
    ensures |r| == |pool| && forall k :: 0 <= k < |pool| ==> r[k] == pool[k].id
  {
    if pool == [] then [] else [pool[0].id] + Ids(pool[1..])
  }

  /** The checks that do not depend on what was accepted before. */
  predicate Acceptable(r: Record, ctx: Context) {
    ClueOk(ToClue(r, ctx.defaultPoints)) && r.invalidCount == 0
      && (ctx.keepHistory ==> r.id !in ctx.history)
  }

  /** The whole filter: acceptable and not already in the pool (`id not in asked`). */
  predicate Admissible(r: Record, pool: seq<Clue>, ctx: Context) {
    Acceptable(r, ctx) && r.id !in Ids(pool)
  }

  /** What every pool the filter builds satisfies. */
  predicate PoolOk(pool: seq<Clue>, ctx: Context) {
    && (forall k :: 0 <= k < |pool| ==> ClueOk(pool[k]))
    && (forall i, j :: 0 <= i < j < |pool| ==> pool[i].id != pool[j].id)
    && (ctx.keepHistory ==> forall k :: 0 <= k < |pool| ==> pool[k].id !in ctx.history)
  }

  /** Appending an admissible record's clue keeps the pool well formed. */
  lemma AdmitKeepsPool(pool: seq<Clue>, r: Record, ctx: Context)
    requires PoolOk(pool, ctx) && Admissible(r, pool, ctx)
    ensures PoolOk(pool + [ToClue(r, ctx.defaultPoints)], ctx)
  {
    var c := ToClue(r, ctx.defaultPoints);
    var p := pool + [c];
    forall i, j | 0 <= i < j < |p|
      ensures p[i].id != p[j].id
    {
      if j == |pool| {
        assert Ids(pool)[i] == pool[i].id;
      }
    }
  }

  /** `c` is the clue of a record of `items` that passes the checks of the filter. */
  predicate Delivered(c: Clue, items: seq<Record>, ctx: Context) {
    exists i :: 0 <= i < |items| && Acceptable(items[i], ctx) && c == ToClue(items[i], ctx.defaultPoints)
  }

  /** Every clue of `pool` beyond its first `from` entries is the clue of an acceptable record of `items`. */
  predicate FromItems(pool: seq<Clue>, from: nat, items: seq<Record>, ctx: Context) {
    forall k :: from <= k < |pool| ==> Delivered(pool[k], items, ctx)
  }

  /**
   * The record loop of one batch (`for item in data`), from record `from`
   * on: records are taken in order while the pool holds fewer than `num` clues.
   */
  function Select(items: seq<Record>, from: nat, pool: seq<Clue>, num: int, ctx: Context): (r: seq<Clue>)
    requires from <= |items| && PoolOk(pool, ctx)
    ensures PoolOk(r, ctx)
    ensures |pool| <= |r| && r[..|pool|] == pool
    ensures |pool| <= num ==> |r| <= num
    decreases |items| - from
  {
    if from == |items| || |pool| == num then pool
    else
      var next := Take(items[from], pool, ctx);
      var r := Select(items, from + 1, next, num, ctx);
      assert r[..|pool|] == pool by {
        assert r[..|next|][..|pool|] == next[..|pool|];
      }
      r
  }

  lemma IdsAppend(pool: seq<Clue>, c: Clue)
    ensures Ids(pool + [c]) == Ids(pool) + [c.id]
  {
    var p := pool + [c];
    assert forall k :: 0 <= k < |pool| ==> p[k] == pool[k];
  }

  /** Unfolding the record loop by one record. */
  lemma SelectStep(items: seq<Record>, from: nat, pool: seq<Clue>, num: int, ctx: Context)
    requires from < |items| && PoolOk(pool, ctx) && |pool| != num
    ensures Select(items, from, pool, num, ctx) == Select(items, from + 1, Take(items[from], pool, ctx), num, ctx)
  {
  }

  /** One step of the record loop: the pool with the record's clue appended if it passes the filter. */
  function Take(item: Record, pool: seq<Clue>, ctx: Context): (r: seq<Clue>)
    requires PoolOk(pool, ctx)
    ensures PoolOk(r, ctx)
    ensures r == pool || r == pool + [ToClue(item, ctx.defaultPoints)]
    ensures r != pool <==> Admissible(item, pool, ctx)
  {
    if Admissible(item, pool, ctx) then
      AdmitKeepsPool(pool, item, ctx);
      pool + [ToClue(item, ctx.defaultPoints)]
    else pool
  }

  /** Every clue the record loop adds is the clue of one of the batch's records. */
  lemma {:induction false} SelectFromItems(items: seq<Record>, from: nat, pool: seq<Clue>, num: int, ctx: Context)
    requires from <= |items| && PoolOk(pool, ctx)
    ensures FromItems(Select(items, from, pool, num, ctx), |pool|, items, ctx)
    decreases |items| - from
  {
    if from < |items| && |pool| != num {
      var next := Take(items[from], pool, ctx);
      var r := Select(items, from + 1, next, num, ctx);
      SelectFromItems(items, from + 1, next, num, ctx);
      forall k | |pool| <= k < |r|
        ensures Delivered(r[k], items, ctx)
      {
        if k < |next| {
          assert next == pool + [ToClue(items[from], ctx.defaultPoints)] && Acceptable(items[from], ctx);
          assert r[k] == r[..|next|][k] == next[k];
          assert 0 <= from < |items| && r[k] == ToClue(items[from], ctx.defaultPoints);
        } else {
          assert FromItems(r, |next|, items, ctx);
        }
      }
    }
  }

  /**
   * The filter misses nothing: if the batch did not fill the pool, every
   * acceptable record of the batch (from `from` on) has its id in the result.
   */
  lemma {:induction false} SelectMaximal(items: seq<Record>, from: nat, pool: seq<Clue>, num: int, ctx: Context)
    requires from <= |items| && PoolOk(pool, ctx)
    requires |Select(items, from, pool, num, ctx)| < num
    ensures forall i :: from <= i < |items| && Acceptable(items[i], ctx) ==>
      items[i].id in Ids(Select(items, from, pool, num, ctx))
    decreases |items| - from
  {
    if from < |items| {
      var next := Take(items[from], pool, ctx);
      var r := Select(items, from, pool, num, ctx);
      assert r == Select(items, from + 1, next, num, ctx);
      SelectMaximal(items, from + 1, next, num, ctx);
      forall i | from <= i < |items| && Acceptable(items[i], ctx)
        ensures items[i].id in Ids(r)
      {
        if i == from {
          TakeRecords(items[from], pool, ctx);
          IdsPrefix(r, |next|);
        }
      }
    }
  }

  /** After one step of the record loop an acceptable record's id is in the pool. */
  lemma TakeRecords(item: Record, pool: seq<Clue>, ctx: Context)
    requires PoolOk(pool, ctx) && Acceptable(item, ctx)
    ensures item.id in Ids(Take(item, pool, ctx))
  {
    var next := Take(item, pool, ctx);
    if item.id !in Ids(pool) {
      assert Ids(next)[|pool|] == item.id;
    }
  }

  /** An id of a prefix of the pool is an id of the pool. */
  lemma IdsPrefix(r: seq<Clue>, n: nat)
    requires n <= |r|
    ensures forall x :: x in Ids(r[..n]) ==> x in Ids(r)
  {
    forall x | x in Ids(r[..n])
      ensures x in Ids(r)
    {
      var k :| 0 <= k < n && Ids(r[..n])[k] == x;
      assert Ids(r)[k] == x;
    }
  }

  // ---------------------------------------------------------------------
  // Random clues
  // ---------------------------------------------------------------------

  /** One answer to `/api/random`: a list of records, or a failed request. */
  datatype Batch = Items(items: seq<Record>) | Failed

  /**
   * The random acquisition as a whole, from response `t` on. A failed
   * request ends it; so does an empty batch when `emptyEnds` (a self-hosted
   * service asked for `num + 5` clues), while jservice.io's empty batches are
   * skipped. Running out of responses is read as a failed request.
   */
  function RandomPool(responses: seq<Batch>, t: nat, pool: seq<Clue>, num: int, emptyEnds: bool, ctx: Context): (r: seq<Clue>)
    requires t <= |responses| && PoolOk(pool, ctx)
    ensures PoolOk(r, ctx)
    ensures |pool| <= |r| && r[..|pool|] == pool
    ensures |pool| <= num ==> |r| <= num
    decreases |responses| - t
  {
    if |pool| >= num || t == |responses| then pool
    else match responses[t]
      case Failed => pool
      case Items(data) =>
        if emptyEnds && data == [] then pool
        else
          var next := Select(data, 0, pool, num, ctx);
          var r := RandomPool(responses, t + 1, next, num, emptyEnds, ctx);
          assert r[..|pool|] == pool by {
            assert r[..|next|][..|pool|] == next[..|pool|];
          }
          r
  }

  /** Unfolding the random acquisition by one batch that neither fails nor ends it. */
  lemma RandomStep(responses: seq<Batch>, t: nat, pool: seq<Clue>, num: int, emptyEnds: bool, ctx: Context)
    requires t < |responses| && PoolOk(pool, ctx) && |pool| < num
    requires responses[t].Items? && !(emptyEnds && responses[t].items == [])
    ensures RandomPool(responses, t, pool, num, emptyEnds, ctx)
      == RandomPool(responses, t + 1, Select(responses[t].items, 0, pool, num, ctx), num, emptyEnds, ctx)
  {
  }

  /** The random acquisition stops once `num` clues are pooled or no batch is left. */
  lemma RandomPoolDone(responses: seq<Batch>, t: nat, pool: seq<Clue>, num: int, emptyEnds: bool, ctx: Context)
    requires t <= |responses| && PoolOk(pool, ctx) && (|pool| >= num || t == |responses|)
    ensures RandomPool(responses, t, pool, num, emptyEnds, ctx) == pool
  {
  }

  /** Every clue of the pool is the clue of an acceptable record some batch delivered. */
  predicate FromBatches(pool: seq<Clue>, responses: seq<Batch>, ctx: Context) {
    forall k :: 0 <= k < |pool| ==>
      exists t :: 0 <= t < |responses| && responses[t].Items? && Delivered(pool[k], responses[t].items, ctx)
  }

  /** The random acquisition only pools clues of acceptable records the service delivered. */
  lemma {:induction false} RandomPoolFromBatches(responses: seq<Batch>, t: nat, pool: seq<Clue>, num: int, emptyEnds: bool, ctx: Context)
    requires t <= |responses| && PoolOk(pool, ctx) && FromBatches(pool, responses, ctx)
    ensures FromBatches(RandomPool(responses, t, pool, num, emptyEnds, ctx), responses, ctx)
    decreases |responses| - t
  {
    if |pool| < num && t < |responses| && responses[t].Items? && !(emptyEnds && responses[t].items == []) {
      var data := responses[t].items;
      var next := Select(data, 0, pool, num, ctx);
      SelectFromItems(data, 0, pool, num, ctx);
      forall k | 0 <= k < |next|
        ensures exists u :: 0 <= u < |responses| && responses[u].Items? && Delivered(next[k], responses[u].items, ctx)
      {
        if k < |pool| {
          assert next[k] == next[..|pool|][k] == pool[k];
        } else {
          assert Delivered(next[k], responses[t].items, ctx);
        }
      }
      RandomPoolFromBatches(responses, t + 1, next, num, emptyEnds, ctx);
    }
  }

  /**
   * The record loop of the random branch: filter one batch into the pool,
   * stopping once `num` clues are pooled.
   */
  method FilterBatch(data: seq<Record>, pool0: seq<Clue>, asked0: seq<int>, num: int, ctx: Context)
    returns (pool: seq<Clue>, asked: seq<int>)
    requires asked0 == Ids(pool0) && PoolOk(pool0, ctx) && |pool0| <= num
    ensures pool == Select(data, 0, pool0, num, ctx) && asked == Ids(pool)
  {
    pool, asked := pool0, asked0;
    var n := |pool0|;
    var i := 0;
    while i < |data|
      invariant 0 <= i <= |data|
      invariant n == |pool| && asked == Ids(pool) && PoolOk(pool, ctx) && n <= num
      invariant Select(data, i, pool, num, ctx) == Select(data, 0, pool0, num, ctx)
    {
      if n == num {
        break;
      }
      var item := data[i];
      SelectStep(data, i, pool, num, ctx);
      if Acceptable(item, ctx) && item.id !in asked {
        var clue := ToClue(item, ctx.defaultPoints);
        assert Take(item, pool, ctx) == pool + [clue];
        IdsAppend(pool, clue);
        pool := pool + [clue];
        asked := asked + [item.id];
        n := n + 1;
      } else {
        assert Take(item, pool, ctx) == pool;
      }
      i := i + 1;
    }
  }

  /**
   * One round of the `categories == "random"` loop: the `t`-th batch request.
   * A failed request ends the loop, and so does an empty batch when
   * `emptyEnds` is set; otherwise the batch's records are filtered into the
   * pool and the acquisition goes on with the next request.
   */
  method RandomRequest(responses: seq<Batch>, t: nat, pool0: seq<Clue>, asked0: seq<int>, num: int, emptyEnds: bool, ctx: Context)
    returns (pool: seq<Clue>, asked: seq<int>, ended: bool)
    requires t < |responses| && asked0 == Ids(pool0) && PoolOk(pool0, ctx) && |pool0| < num
    ensures asked == Ids(pool) && PoolOk(pool, ctx) && |pool| <= num
    ensures ended ==> pool == RandomPool(responses, t, pool0, num, emptyEnds, ctx)
    ensures !ended ==> RandomPool(responses, t, pool0, num, emptyEnds, ctx) == RandomPool(responses, t + 1, pool, num, emptyEnds, ctx)
  {
    match responses[t] {
      case Failed =>
        pool, asked, ended := pool0, asked0, true;
      case Items(data) =>
        if emptyEnds && data == [] {
          pool, asked, ended := pool0, asked0, true;
        } else {
          RandomStep(responses, t, pool0, num, emptyEnds, ctx);
          pool, asked := FilterBatch(data, pool0, asked0, num, ctx);
          ended := false;
        }
    }
  }

  /**
   * The `categories == "random"` branch: keep requesting batches and
   * filtering their records until `num` clues are pooled or a request fails.
   */
  method AcquireRandom(responses: seq<Batch>, num: int, emptyEnds: bool, ctx: Context) returns (pool: seq<Clue>)
    ensures pool == RandomPool(responses, 0, [], num, emptyEnds, ctx)
    ensures PoolOk(pool, ctx) && |pool| <= (if num < 0 then 0 else num)
    ensures FromBatches(pool, responses, ctx)
  {
    pool := [];
    var asked: seq<int> := [];
    var t := 0;
    ghost var target := RandomPool(responses, 0, [], num, emptyEnds, ctx);
    // the source's loop runs while fewer than `num` clues are counted
    while true
      invariant 0 <= t <= |responses|
      invariant asked == Ids(pool) && PoolOk(pool, ctx)
      invariant RandomPool(responses, t, pool, num, emptyEnds, ctx) == target
      decreases |responses| - t
    {
      if |pool| >= num || t == |responses| {
        RandomPoolDone(responses, t, pool, num, emptyEnds, ctx);
        break;
      }
      var ended;
      pool, asked, ended := RandomRequest(responses, t, pool, asked, num, emptyEnds, ctx);
      if ended {
        // an empty batch counts one clue in the source, which ends the loop just the same
        break;
      }
      t := t + 1;
    }
    RandomPoolFromBatches(responses, 0, [], num, emptyEnds, ctx);
  }

  // ---------------------------------------------------------------------
  // Chosen categories
  // ---------------------------------------------------------------------

  /**
   * One answer to `/api/clues?category=...`: the request or the conversion
   * of the category id raised (`FetchError`), or the service found no clue
   * (`NoData`), or a later page request raised after the clue count was read
   * (`PageError`), or all pages arrived (`Fetched`, their records concatenated).
   */
  datatype CategoryResponse =
    | FetchError
    | NoData
    | PageError(cluesCount: int)
    | Fetched(cluesCount: int, items: seq<Record>)

  /** Every clue of the pool is the clue of an acceptable record some category response delivered. */
  predicate FromResponses(pool: seq<Clue>, responses: seq<CategoryResponse>, ctx: Context) {
    forall k :: 0 <= k < |pool| ==>
      exists t :: 0 <= t < |responses| && responses[t].Fetched? && Delivered(pool[k], responses[t].items, ctx)
  }

  /** A traced prefix followed by clues of one fetched response is traced. */
  lemma FromItemsResponses(pool: seq<Clue>, from: nat, responses: seq<CategoryResponse>, t: nat, ctx: Context)
    requires from <= |pool| && t < |responses| && responses[t].Fetched? && FromItems(pool, from, responses[t].items, ctx)
    ensures FromResponses(pool[..from], responses, ctx) ==> FromResponses(pool, responses, ctx)
  {
    forall m | 0 <= m < |pool| && FromResponses(pool[..from], responses, ctx)
      ensures exists u :: 0 <= u < |responses| && responses[u].Fetched? && Delivered(pool[m], responses[u].items, ctx)
    {
      if m < from {
        assert pool[..from][m] == pool[m];
      } else {
        assert Delivered(pool[m], responses[t].items, ctx);
      }
    }
  }

  /** Where the record loop of one category's response stops: the pool, the `shuffle` flag and the count `k`. */
  datatype Walk = Walk(pool: seq<Clue>, shuffle: bool, k: nat)

  /**
   * The record loop of one category's response, from record `i` on, with `j`
   * clues taken from this category so far. Records are taken in order until
   * the pool holds `num` clues. With `shuffle` on, reaching the last
   * category (`k == categories`) switches shuffling off and restarts `k`,
   * and otherwise a category stops contributing once it gave a fifth of
   * `num` clues.
   */
  function CategoryRecords(data: seq<Record>, i: nat, pool: seq<Clue>, num: int, shuffle: bool, k: nat, j: nat,
                           categories: nat, ctx: Context): (r: Walk)
    requires i <= |data| && PoolOk(pool, ctx) && k <= categories
    ensures PoolOk(r.pool, ctx)
    ensures |pool| <= num ==> |r.pool| <= num
    ensures r.k <= categories && (r.shuffle ==> shuffle) && (r.shuffle == shuffle ==> k <= r.k)
    ensures r.shuffle && |r.pool| > |pool| ==> 5 * (j + |r.pool| - |pool| - 1) < num
    decreases |data| - i
  {
    if i == |data| || |pool| == num then Walk(pool, shuffle, k)
    else
      var reset := shuffle && k == categories;
      var s := if reset then false else shuffle;
      var k' := if reset then 0 else k;
      if s && 5 * j >= num then Walk(pool, s, k')
      else
        var next := Take(data[i], pool, ctx);
        CategoryRecords(data, i + 1, next, num, s, k', if |next| == |pool| then j else j + 1, categories, ctx)
  }

  /** Reaching the last category with `shuffle` on: the same record is taken up again with shuffling off and `k` restarted. */
  lemma CategoryRecordsReset(data: seq<Record>, i: nat, pool: seq<Clue>, num: int, j: nat, categories: nat, ctx: Context)
    requires i < |data| && PoolOk(pool, ctx) && |pool| != num
    ensures CategoryRecords(data, i, pool, num, true, categories, j, categories, ctx)
      == CategoryRecords(data, i, pool, num, false, 0, j, categories, ctx)
  {
  }

  /** Unfolding a category's record loop by one record that is neither a reset nor past the cap. */
  lemma CategoryRecordsStep(data: seq<Record>, i: nat, pool: seq<Clue>, num: int, shuffle: bool, k: nat, j: nat,
                            categories: nat, ctx: Context)
    requires i < |data| && PoolOk(pool, ctx) && k <= categories && |pool| != num
    requires !(shuffle && k == categories) && !(shuffle && 5 * j >= num)
    ensures var next := Take(data[i], pool, ctx);
      CategoryRecords(data, i, pool, num, shuffle, k, j, categories, ctx)
        == CategoryRecords(data, i + 1, next, num, shuffle, k, if |next| == |pool| then j else j + 1, categories, ctx)
  {
  }

  /** Without shuffling, a category's record loop is the record loop of the random branch. */
  lemma {:induction false} CategoryRecordsSelect(data: seq<Record>, i: nat, pool: seq<Clue>, num: int, k: nat, j: nat,
                                                 categories: nat, ctx: Context)
    requires i <= |data| && PoolOk(pool, ctx) && k <= categories
    ensures CategoryRecords(data, i, pool, num, false, k, j, categories, ctx) == Walk(Select(data, i, pool, num, ctx), false, k)
    decreases |data| - i
  {
    if i < |data| && |pool| != num {
      var next := Take(data[i], pool, ctx);
      CategoryRecordsStep(data, i, pool, num, false, k, j, categories, ctx);
      CategoryRecordsSelect(data, i + 1, next, num, k, if |next| == |pool| then j else j + 1, categories, ctx);
      assert Select(data, i, pool, num, ctx) == Select(data, i + 1, next, num, ctx);
    }
  }

  /**
   * A category's record loop only appends to the pool, and every clue it
   * adds is the clue of an acceptable record of the response.
   */
  lemma {:induction false} CategoryRecordsFromItems(data: seq<Record>, i: nat, pool: seq<Clue>, num: int, shuffle: bool, k: nat,
                                                    j: nat, categories: nat, ctx: Context)
    requires i <= |data| && PoolOk(pool, ctx) && k <= categories
    ensures var r := CategoryRecords(data, i, pool, num, shuffle, k, j, categories, ctx).pool;
      |pool| <= |r| && r[..|pool|] == pool && FromItems(r, |pool|, data, ctx)
    decreases |data| - i
  {
    if i < |data| && |pool| != num {
      var reset := shuffle && k == categories;
      var s := if reset then false else shuffle;
      var k' := if reset then 0 else k;
      if !(s && 5 * j >= num) {
        var next := Take(data[i], pool, ctx);
        var j' := if |next| == |pool| then j else j + 1;
        var r := CategoryRecords(data, i + 1, next, num, s, k', j', categories, ctx);
        CategoryRecordsFromItems(data, i + 1, next, num, s, k', j', categories, ctx);
        assert r.pool[..|pool|] == pool by {
          assert r.pool[..|next|][..|pool|] == next[..|pool|];
        }
        forall m | |pool| <= m < |r.pool|
          ensures Delivered(r.pool[m], data, ctx)
        {
          if m < |next| {
            assert r.pool[m] == r.pool[..|next|][m] == ToClue(data[i], ctx.defaultPoints);
          }
        }
      }
    }
  }

  /** The answer to the `t`-th category request; running out of responses is read as a failed request. */
  function Respond(responses: seq<CategoryResponse>, t: nat): CategoryResponse {
    if t < |responses| then responses[t] else FetchError
  }

  /** With a single category whose clue count is below `num`, `num` drops to that count. */
  function Limit(response: CategoryResponse, num: int, categories: nat): (r: int)
    ensures r <= num
    ensures categories > 1 ==> r == num
  {
    if (response.PageError? || response.Fetched?) && response.cluesCount < num && categories == 1 then response.cluesCount
    else num
  }

  /**
   * The category branch as a whole, from response `t` on, at category `c` of
   * the current pass. A pass starts (`c == 0`) only while the pool holds at
   * most `num` clues, and both loops stop at `num` clues or once `k` exceeds
   * `categories`. A failed request, an empty answer or a failed page request
   * counts `k` and ends the pass; a fetched category runs its record loop and
   * counts `k`.
   */
  function CategoryPool(responses: seq<CategoryResponse>, t: nat, c: nat, pool: seq<Clue>, num: int, shuffle: bool,
                        k: nat, categories: nat, ctx: Context): (r: seq<Clue>)
    requires t <= |responses| && c < categories && k <= categories + 1 && PoolOk(pool, ctx)
    ensures PoolOk(r, ctx)
    ensures categories > 1 && |pool| <= num ==> |r| <= num
    ensures FromResponses(pool, responses, ctx) ==> FromResponses(r, responses, ctx)
    decreases (if shuffle then 1 else 0), categories + 1 - k
  {
    if (c == 0 && |pool| > num) || |pool| == num || k > categories then pool
    else
      var response := Respond(responses, t);
      var t' := if t < |responses| then t + 1 else t;
      if !response.Fetched? then
        CategoryPool(responses, t', 0, pool, Limit(response, num, categories), shuffle, k + 1, categories, ctx)
      else
        var w := CategoryRecords(response.items, 0, pool, Limit(response, num, categories), shuffle, k, 0, categories, ctx);
        CategoryRecordsFromItems(response.items, 0, pool, Limit(response, num, categories), shuffle, k, 0, categories, ctx);
        FromItemsResponses(w.pool, |pool|, responses, t, ctx);
        CategoryPool(responses, t', if c + 1 == categories then 0 else c + 1, w.pool, Limit(response, num, categories),
                     w.shuffle, w.k + 1, categories, ctx)
  }

  /** Where the category branch stops, the pool is what it acquired. */
  lemma CategoryPoolDone(responses: seq<CategoryResponse>, t: nat, c: nat, pool: seq<Clue>, num: int, shuffle: bool,
                         k: nat, categories: nat, ctx: Context)
    requires t <= |responses| && c < categories && k <= categories + 1 && PoolOk(pool, ctx)
    requires (c == 0 && |pool| > num) || |pool| == num || k > categories
    ensures CategoryPool(responses, t, c, pool, num, shuffle, k, categories, ctx) == pool
  {
  }

  /** Unfolding the category branch by a request that ends the pass. */
  lemma CategoryPoolEnds(responses: seq<CategoryResponse>, t: nat, c: nat, pool: seq<Clue>, num: int, shuffle: bool,
                         k: nat, categories: nat, ctx: Context)
    requires t <= |responses| && c < categories && k <= categories && PoolOk(pool, ctx)
    requires !(c == 0 && |pool| > num) && |pool| != num && !Respond(responses, t).Fetched?
    ensures CategoryPool(responses, t, c, pool, num, shuffle, k, categories, ctx)
      == CategoryPool(responses, if t < |responses| then t + 1 else t, 0, pool, Limit(Respond(responses, t), num, categories),
                      shuffle, k + 1, categories, ctx)
  {
  }

  /** Unfolding the category branch by a fetched category. */
  lemma CategoryPoolNext(responses: seq<CategoryResponse>, t: nat, c: nat, pool: seq<Clue>, num: int, shuffle: bool,
                         k: nat, categories: nat, ctx: Context,
                         t': nat, c': nat, pool': seq<Clue>, num': int, shuffle': bool, k': nat)
    requires t < |responses| && c < categories && k <= categories && PoolOk(pool, ctx)
    requires !(c == 0 && |pool| > num) && |pool| != num && responses[t].Fetched?
    requires t' == t + 1 && c' == (if c + 1 == categories then 0 else c + 1) && k' >= 1
    requires num' == Limit(responses[t], num, categories)
    requires Walk(pool', shuffle', k' - 1) == CategoryRecords(responses[t].items, 0, pool, num', shuffle, k, 0, categories, ctx)
    ensures CategoryPool(responses, t, c, pool, num, shuffle, k, categories, ctx)
      == CategoryPool(responses, t', c', pool', num', shuffle', k', categories, ctx)
  {
  }

  /** The record loop of one category's response: it computes `CategoryRecords`. */
  method CategoryBatch(data: seq<Record>, pool0: seq<Clue>, asked0: seq<int>, num: int, shuffle0: bool, k0: nat,
                       categories: nat, ctx: Context)
    returns (pool: seq<Clue>, asked: seq<int>, shuffle: bool, k: nat)
    requires asked0 == Ids(pool0) && PoolOk(pool0, ctx) && k0 <= categories
    ensures Walk(pool, shuffle, k) == CategoryRecords(data, 0, pool0, num, shuffle0, k0, 0, categories, ctx)
    ensures asked == Ids(pool)
  {
    pool, asked, shuffle, k := pool0, asked0, shuffle0, k0;
    var n := |pool|;
    var j: nat := 0;
    var i := 0;
    ghost var target := CategoryRecords(data, 0, pool0, num, shuffle0, k0, 0, categories, ctx);
    while i < |data|
      invariant 0 <= i <= |data|
      invariant n == |pool| && asked == Ids(pool) && PoolOk(pool, ctx) && k <= categories
      invariant CategoryRecords(data, i, pool, num, shuffle, k, j, categories, ctx) == target
    {
      if n == num || k > categories {
        break;
      } else if shuffle && k == categories {
        CategoryRecordsReset(data, i, pool, num, j, categories, ctx);
        shuffle := false;
        k := 0;
      } else if shuffle && 5 * j >= num {
        break;
      }
      var item := data[i];
      CategoryRecordsStep(data, i, pool, num, shuffle, k, j, categories, ctx);
      if Acceptable(item, ctx) && item.id !in asked {
        var clue := ToClue(item, ctx.defaultPoints);
        assert Take(item, pool, ctx) == pool + [clue];
        IdsAppend(pool, clue);
        pool := pool + [clue];
        asked := asked + [item.id];
        n := n + 1;
        j := j + 1;
      } else {
        assert Take(item, pool, ctx) == pool;
      }
      i := i + 1;
    }
  }

  /**
   * The body of a pass for the category at position `at`: one request. A
   * failed request, an empty answer or a failed page request counts `k` and
   * ends the pass (`next` is 0); a fetched category's records go through the
   * record loop before `k` is counted, and the pass goes on with the next
   * category (`next` is 0 again after the last one). With a single category
   * whose clue count is below `num`, `num` drops to that count.
   */
  method CategoryRequest(responses: seq<CategoryResponse>, t0: nat, at: nat, pool0: seq<Clue>, asked0: seq<int>, num0: int,
                         shuffle0: bool, k0: nat, categories: nat, ctx: Context)
    returns (t: nat, pool: seq<Clue>, asked: seq<int>, num: int, shuffle: bool, k: nat, next: nat)
    requires t0 <= |responses| && at < categories && k0 <= categories
    requires asked0 == Ids(pool0) && PoolOk(pool0, ctx)
    requires !(at == 0 && |pool0| > num0) && |pool0| != num0
    ensures t <= |responses| && k <= categories + 1 && asked == Ids(pool) && PoolOk(pool, ctx)
    ensures next < categories && (next == 0 || next == at + 1)
    ensures CategoryPool(responses, t0, at, pool0, num0, shuffle0, k0, categories, ctx)
      == CategoryPool(responses, t, next, pool, num, shuffle, k, categories, ctx)
    ensures (shuffle ==> shuffle0) && (shuffle == shuffle0 ==> k0 < k)
  {
    // no response left: read as a failed request
    var response := Respond(responses, t0);
    t := if t0 < |responses| then t0 + 1 else t0;
    num := Limit(response, num0, categories);
    if !response.Fetched? {
      CategoryPoolEnds(responses, t0, at, pool0, num0, shuffle0, k0, categories, ctx);
      pool, asked, shuffle, k, next := pool0, asked0, shuffle0, k0 + 1, 0;
      return;
    }
    assert t0 < |responses| && response == responses[t0] && t == t0 + 1;
    pool, asked, shuffle, k := CategoryBatch(response.items, pool0, asked0, num, shuffle0, k0, categories, ctx);
    next := if at + 1 == categories then 0 else at + 1;
    k := k + 1;
    CategoryPoolNext(responses, t0, at, pool0, num0, shuffle0, k0, categories, ctx, t, next, pool, num, shuffle, k);
  }

  /**
   * One pass of the category branch's outer loop (`for category in
   * categories`): one request per category, until a request ends the pass,
   * the pool holds `num` clues or `k` exceeds `categories`. The pass leaves
   * the rest of the acquisition, `CategoryPool`, as it was, and it makes
   * progress: shuffling was switched off or `k` went up.
   */
  method CategoryPass(responses: seq<CategoryResponse>, t0: nat, pool0: seq<Clue>, asked0: seq<int>, num0: int, shuffle0: bool,
                      k0: nat, categories: nat, ctx: Context)
    returns (t: nat, pool: seq<Clue>, asked: seq<int>, num: int, shuffle: bool, k: nat)
    requires categories >= 1 && t0 <= |responses| && k0 <= categories
    requires asked0 == Ids(pool0) && PoolOk(pool0, ctx) && |pool0| < num0
    ensures t <= |responses| && k <= categories + 1 && asked == Ids(pool) && PoolOk(pool, ctx)
    ensures CategoryPool(responses, t, 0, pool, num, shuffle, k, categories, ctx)
      == CategoryPool(responses, t0, 0, pool0, num0, shuffle0, k0, categories, ctx)
    ensures (shuffle ==> shuffle0) && (shuffle == shuffle0 ==> k0 < k)
  {
    t, pool, asked, num, shuffle, k := t0, pool0, asked0, num0, shuffle0, k0;
    var c := 0;
    ghost var target := CategoryPool(responses, t0, 0, pool0, num0, shuffle0, k0, categories, ctx);
    while true
      invariant c < categories && t <= |responses| && k <= categories + 1
      invariant asked == Ids(pool) && PoolOk(pool, ctx)
      invariant CategoryPool(responses, t, c, pool, num, shuffle, k, categories, ctx) == target
      invariant (shuffle ==> shuffle0) && (shuffle == shuffle0 ==> k0 <= k)
      invariant c > 0 ==> shuffle != shuffle0 || k0 < k
      invariant c == 0 ==> k == k0 && shuffle == shuffle0 && |pool| < num
      decreases categories - c
    {
      if |pool| == num || k > categories {
        CategoryPoolDone(responses, t, c, pool, num, shuffle, k, categories, ctx);
        CategoryPoolDone(responses, t, 0, pool, num, shuffle, k, categories, ctx);
        return;
      }
      var next;
      t, pool, asked, num, shuffle, k, next := CategoryRequest(responses, t, c, pool, asked, num, shuffle, k, categories, ctx);
      if next == 0 {
        return;
      }
      c := next;
    }
  }

  /**
   * The category branch. `categories` is the number of category ids (at
   * least one: the start command never passes an empty list). The outer
   * loop makes passes over the categories until the pool holds `num` clues
   * or more, or `k` exceeds `categories`; the result is `CategoryPool`.
   */
  method AcquireCategories(responses: seq<CategoryResponse>, categories: nat, num0: int, shuffle0: bool, ctx: Context)
    returns (pool: seq<Clue>)
    requires categories >= 1
    ensures pool == CategoryPool(responses, 0, 0, [], num0, shuffle0, 0, categories, ctx)
    ensures PoolOk(pool, ctx) && FromResponses(pool, responses, ctx)
    ensures categories > 1 ==> |pool| <= (if num0 < 0 then 0 else num0)
  {
    pool := [];
    var asked: seq<int> := [];
    var num := num0;
    var shuffle := shuffle0;
    var n := 0;
    var k := 0;
    var t := 0;
    ghost var target := CategoryPool(responses, 0, 0, [], num0, shuffle0, 0, categories, ctx);
    while n <= num
      invariant 0 <= t <= |responses| && 0 <= k <= categories + 1
      invariant n == |pool| && asked == Ids(pool) && PoolOk(pool, ctx)
      invariant CategoryPool(responses, t, 0, pool, num, shuffle, k, categories, ctx) == target
      decreases (if shuffle then 1 else 0), categories + 1 - k
    {
      if n == num || k > categories {
        break;
      }
      t, pool, asked, num, shuffle, k := CategoryPass(responses, t, pool, asked, num, shuffle, k, categories, ctx);
      n := |pool|;
    }
    CategoryPoolDone(responses, t, 0, pool, num, shuffle, k, categories, ctx);
    if num0 < 0 {
      CategoryPoolDone(responses, 0, 0, [], num0, shuffle0, 0, categories, ctx);
    }
  }

  // ---------------------------------------------------------------------
  // Pool order
  // ---------------------------------------------------------------------

  /** `questions[::-1]`. */
  function Reverse(s: seq<Clue>): (r: seq<Clue>)
    ensures |r| == |s| && forall k :: 0 <= k < |s| ==> r[k] == s[|s| - 1 - k]
  {
    if s == [] then [] else Reverse(s[1..]) + [s[0]]
  }

  /**
   * Clues are asked in acquisition order: popping the last clue of the
   * reversed pool yields the first one acquired, and leaves the reversal of
   * the rest.
   */
  lemma PopReversed(s: seq<Clue>)
    requires s != []
    ensures Reverse(s)[|s| - 1] == s[0]
    ensures Reverse(s)[..|s| - 1] == Reverse(s[1..])
  {
    var r1 := Reverse(s[1..]);
    assert Reverse(s) == r1 + [s[0]];
    assert (r1 + [s[0]])[..|r1|] == r1;
  }

  /** The draw used for the t-th random choice; a missing draw counts as 0. */
  function Draw(draws: seq<nat>, t: nat): nat {
    if t < |draws| then draws[t] else 0
  }

  /**
   * `random.shuffle`: Fisher–Yates from the last position down, swapping
   * position i with a position j chosen below i + 1 from the draws.
   */
  method Shuffle(s: seq<Clue>, draws: seq<nat>) returns (r: seq<Clue>)
    ensures |r| == |s| && multiset(r) == multiset(s)
  {
    r := s;
    var i := |s| - 1;
    var t := 0;
    while i >= 1
      invariant |r| == |s| && multiset(r) == multiset(s)
      invariant i < |s|
    {
      var j := Draw(draws, t) % (i + 1);
      r := r[i := r[j]][j := r[i]];
      i := i - 1;
      t := t + 1;
    }
  }

  /** Shuffled when `--shuffle` was given or `randomize` is set, reversed otherwise. */
  method Arrange(pool: seq<Clue>, shuffled: bool, draws: seq<nat>) returns (r: seq<Clue>)
    ensures |r| == |pool| && multiset(r) == multiset(pool)
    ensures !shuffled ==> r == Reverse(pool)
  {
    if shuffled {
      r := Shuffle(pool, draws);
    } else {
      r := Reverse(pool);
      assert multiset(r) == multiset(pool) by {
        ReverseMultiset(pool);
      }
    }
  }

  lemma {:induction false} ReverseMultiset(s: seq<Clue>)
    ensures multiset(Reverse(s)) == multiset(s)
  {
    if s != [] {
      ReverseMultiset(s[1..]);
      assert s == [s[0]] + s[1..];
    }
  }
}
