/**
 * The validation job of `tasks/validation.py`: column and strategy-code checks, the composite
 * response-cache key, and the per-row, per-strategy-code loop of `process_csv_and_save`.
 *
 * The data frame is a sequence of row records. The classification client together with
 * `construct_prompt` is an oracle: the reply to the n-th request for a prompt, or the text of the
 * exception the call raises. The response cache is an in-memory map; loading it is a parameter and every
 * `save_cache` is recorded as a snapshot of the whole map.
 */
module Validation {
  import opened Options
  import opened PyStr
  import opened ResponseParser

  const RequiredColumns: seq<string> :=
    ["Company_Name", "City", "Country", "RE_Strategy_Codes", "RE_Strategy_Names", "Short_Description"]

  /** Separator of `RE_Strategy_Codes` and of the three joined output columns. */
  const CodeSeparator := ", "

  /** What `handle_row_error` returns. */
  const RowErrorText := "Error in OpenAI response"

  /** The text of the `AttributeError` raised by `split` on a missing (NaN, a float) codes cell. */
  const MissingCodesMessage := "'float' object has no attribute 'split'"

  /** The outcome of a call that may raise: its value, or the text `str(e)` of the exception. */
  datatype Attempt<+T> = Done(value: T) | Raised(message: string)

  /**
   * One input row. `strategyCodes` is `None` for a missing (NaN) cell: calling `split` on it
   * raises, which fails the row.
   */
  datatype Row = Row(companyName: string, city: string, country: string,
                     strategyCodes: Option<string>, shortDescription: string)

  datatype DataFrame = DataFrame(columns: seq<string>, rows: seq<Row>)

  /** The arguments of `construct_prompt`, which builds the request sent to the client. */
  datatype Prompt = Prompt(companyName: string, city: string, country: string,
                           strategyCode: string, shortDescription: string)

  /** The classification client: its reply to the n-th request, or the exception it raises. */
  type Client = (nat, Prompt) -> Attempt<string>

  /** The collaborators of one job: the known strategy dictionary and the client. */
  datatype Env = Env(strategyDict: map<string, string>, client: Client)

  /**
   * The state the job threads through its rows: the response cache, the number of client
   * requests issued so far, and the content of every `save_cache` in order.
   */
  datatype Session = Session(cache: map<string, string>, calls: nat, saves: seq<map<string, string>>)

  /** What the job produces: nothing when columns are missing, otherwise the three new columns. */
  datatype Outcome =
    | ColumnsMissing
    | Written(agreements: seq<string>, strategies: seq<string>, explanations: seq<string>)

  // ---------------------------------------------------------------------------------------
  // validate_columns, validate_strategy_code, handle_row_error, get_cache_key

  /** The comprehension of `validate_columns`: the required columns the frame lacks, in order. */
  function MissingColumns(columns: seq<string>, required: seq<string>): (missing: seq<string>)
    ensures forall c :: c in missing <==> c in required && c !in columns
    ensures |missing| <= |required|
  {
    if required == [] then []
    else (if required[0] in columns then [] else [required[0]]) + MissingColumns(columns, required[1..])
  }

  function ValidateColumns(columns: seq<string>, required: seq<string>): (ok: bool)
    ensures ok <==> forall c :: c in required ==> c in columns
  {
    var missing := MissingColumns(columns, required);
    assert missing != [] ==> missing[0] in missing;
    missing == []
  }

  function ValidateStrategyCode(code: string, strategyDict: map<string, string>): bool
  {
    code in strategyDict
  }

  /** The third output field of a failed row: a constant, independent of the row and the exception. */
  function HandleRowError(row: Row, errorMessage: string): string
  {
    RowErrorText
  }

  /** The `except` branch of lines 158-161: the triple recorded for a row whose processing raised. */
  function RowError(row: Row, errorMessage: string): Classification
  {
    Classification("Error", "Error", HandleRowError(row, errorMessage))
  }

  function GetCacheKey(companyName: string, city: string, country: string, strategyCode: string): string
  {
    companyName + "_" + city + "_" + country + "_" + strategyCode
  }

  /** A string with a leading part free of `_` splits uniquely at its first `_`. */
  lemma FirstUnderscore(a: string, b: string, a': string, b': string)
    requires '_' !in a && '_' !in a' && a + "_" + b == a' + "_" + b'
    ensures a == a' && b == b'
  {
    var t := a + "_" + b;
    assert t == a' + "_" + b';
    assert t[|a|] == '_' && t[|a'|] == '_';
    assert forall k :: 0 <= k < |a| ==> t[k] == a[k];
    assert forall k :: 0 <= k < |a'| ==> t[k] == a'[k];
    assert |a| == |a'|;
    assert a == t[..|a|] == a';
    assert b == t[|a| + 1..] == b';
  }

  /**
   * The key determines company, city and country (and so the code) when none of the three
   * contains `_`.
   */
  lemma CacheKeyInjective(company: string, city: string, country: string, code: string,
                          company': string, city': string, country': string, code': string)
    requires '_' !in company && '_' !in city && '_' !in country
    requires '_' !in company' && '_' !in city' && '_' !in country'
    requires GetCacheKey(company, city, country, code) == GetCacheKey(company', city', country', code')
    ensures company == company' && city == city' && country == country' && code == code'
  {
    assert GetCacheKey(company, city, country, code) == company + "_" + (city + "_" + (country + "_" + code));
    assert GetCacheKey(company', city', country', code') == company' + "_" + (city' + "_" + (country' + "_" + code'));
    FirstUnderscore(company, city + "_" + (country + "_" + code), company', city' + "_" + (country' + "_" + code'));
    FirstUnderscore(city, country + "_" + code, city', country' + "_" + code');
    FirstUnderscore(country, code, country', code');
  }

  /** Without that condition two different rows can share a key, and so a cached reply. */
  lemma CacheKeyCollision()
    ensures GetCacheKey("a_b", "c", "Germany", "R2") == GetCacheKey("a", "b_c", "Germany", "R2")
  {
  }

  // ---------------------------------------------------------------------------------------
  // The row loop of process_csv_and_save, as functions

  function InvalidResult(code: string): Classification
  {
    Classification("Invalid", "Invalid strategy code: " + code, "")
  }

  function PromptFor(row: Row, code: string): Prompt
  {
    Prompt(row.companyName, row.city, row.country, code, row.shortDescription)
  }

  function KeyFor(row: Row, code: string): string
  {
    GetCacheKey(row.companyName, row.city, row.country, code)
  }

  /** One strategy code of a row; `Raised` in the result means the client call raised. */
  function CodeStep(s: Session, env: Env, row: Row, code: string): (Session, Attempt<Classification>)
  {
    if !ValidateStrategyCode(code, env.strategyDict) then
      (s, Done(InvalidResult(code)))
    else
      var key := KeyFor(row, code);
      if key in s.cache then
        (s, Done(ParseOpenAiResponse(s.cache[key])))
      else
        match env.client(s.calls, PromptFor(row, code))
        case Raised(message) => (s.(calls := s.calls + 1), Raised(message))
        case Done(response) =>
          var cache := s.cache[key := response];
          (Session(cache, s.calls + 1, s.saves + [cache]), Done(ParseOpenAiResponse(response)))
  }

  /** The remaining codes of a row after the results `acc`; stops at the first call that raises. */
  function CodesRun(s: Session, env: Env, row: Row, codes: seq<string>, acc: seq<Classification>)
    : (Session, Attempt<seq<Classification>>)
    decreases |codes|
  {
    if codes == [] then
      (s, Done(acc))
    else
      var (s1, r) := CodeStep(s, env, row, codes[0]);
      match r
      case Raised(message) => (s1, Raised(message))
      case Done(c) => CodesRun(s1, env, row, codes[1..], acc + [c])
  }

  function Agreements(rs: seq<Classification>): seq<string>
  {
    seq(|rs|, i requires 0 <= i < |rs| => rs[i].agreement)
  }

  function Strategies(rs: seq<Classification>): seq<string>
  {
    seq(|rs|, i requires 0 <= i < |rs| => rs[i].strategy)
  }

  function Explanations(rs: seq<Classification>): seq<string>
  {
    seq(|rs|, i requires 0 <= i < |rs| => rs[i].explanation)
  }

  /** Appending a triple appends its fields to the three columns. */
  lemma ColumnsAppend(rs: seq<Classification>, c: Classification)
    ensures Agreements(rs + [c]) == Agreements(rs) + [c.agreement]
    ensures Strategies(rs + [c]) == Strategies(rs) + [c.strategy]
    ensures Explanations(rs + [c]) == Explanations(rs) + [c.explanation]
  {
  }

  /** The per-code results of a row joined with ", " into its three output fields. */
  function Joined(rs: seq<Classification>): Classification
  {
    Classification(Join(Agreements(rs), CodeSeparator), Join(Strategies(rs), CodeSeparator),
                   Join(Explanations(rs), CodeSeparator))
  }

  function Codes(text: string): seq<string>
  {
    Split(text, CodeSeparator)
  }

  /** The body of the `try` for one row, with the `except` branch. */
  function RowStep(s: Session, env: Env, row: Row): (Session, Classification)
  {
    match row.strategyCodes
    case None => (s, RowError(row, MissingCodesMessage))
    case Some(text) =>
      var (s1, rs) := CodesRun(s, env, row, Codes(text), []);
      match rs
      case Raised(message) => (s1, RowError(row, message))
      case Done(results) => (s1, Joined(results))
  }

  /** The remaining rows after the output triples `acc`. */
  function RowsRun(s: Session, env: Env, rows: seq<Row>, acc: seq<Classification>): (Session, seq<Classification>)
    decreases |rows|
  {
    if rows == [] then
      (s, acc)
    else
      var (s1, t) := RowStep(s, env, rows[0]);
      RowsRun(s1, env, rows[1..], acc + [t])
  }

  function Job(df: DataFrame, env: Env, loaded: map<string, string>): (Outcome, Session)
  {
    var s0 := Session(loaded, 0, []);
    if !ValidateColumns(df.columns, RequiredColumns) then
      (ColumnsMissing, s0)
    else
      var (s, out) := RowsRun(s0, env, df.rows, []);
      (Written(Agreements(out), Strategies(out), Explanations(out)), s)
  }

  // ---------------------------------------------------------------------------------------
  // process_csv_and_save

  /**
   * The inner `for code in strategy_codes` loop of one row: validate, look up the cache, call the
   * client on a miss and save the cache after each new entry. `failure` is the text of the
   * exception of a client call that raised, which ends the row.
   */
  method ClassifyCodes(env: Env, row: Row, codes: seq<string>, cache0: map<string, string>, calls0: nat,
                       ghost saves0: seq<map<string, string>>)
    returns (results: seq<Classification>, failure: Option<string>, cache: map<string, string>, calls: nat,
             ghost saves: seq<map<string, string>>)
    ensures var (t, rs) := CodesRun(Session(cache0, calls0, saves0), env, row, codes, []);
            && cache == t.cache && calls == t.calls
            && (failure.Some? <==> rs.Raised?)
            && (failure.Some? ==> rs.message == failure.value)
            && (failure.None? ==> results == rs.value)
    ensures saves == CodesRun(Session(cache0, calls0, saves0), env, row, codes, []).0.saves
  {
    ghost var before := Session(cache0, calls0, saves0);
    cache, calls, saves := cache0, calls0, saves0;
    results, failure := [], None;
    var j := 0;
    while j < |codes| && failure.None?
      invariant 0 <= j <= |codes|
      invariant failure.None? ==> CodesRun(before, env, row, codes, []) ==
                                  CodesRun(Session(cache, calls, saves), env, row, codes[j..], results)
      invariant failure.Some? ==>
                CodesRun(before, env, row, codes, []) == (Session(cache, calls, saves), Raised(failure.value))
      decreases |codes| - j, if failure.Some? then 0 else 1
    {
      var code := codes[j];
      assert codes[j..][0] == code && codes[j..][1..] == codes[j + 1..];
      if !ValidateStrategyCode(code, env.strategyDict) {
        results := results + [InvalidResult(code)];
        j := j + 1;
      } else {
        var key := GetCacheKey(row.companyName, row.city, row.country, code);
        if key in cache {
          results := results + [ParseOpenAiResponse(cache[key])];
          j := j + 1;
        } else {
          var reply := env.client(calls, PromptFor(row, code));
          calls := calls + 1;
          match reply {
            case Raised(message) =>
              failure := Some(message);
            case Done(response) =>
              cache := cache[key := response];
              saves := saves + [cache];
              results := results + [ParseOpenAiResponse(response)];
              j := j + 1;
          }
        }
      }
    }
  }

  /** One row of the outer loop, inside its `try`: the row's triple, or the error triple on an exception. */
  method ClassifyRow(env: Env, row: Row, cache0: map<string, string>, calls0: nat, ghost saves0: seq<map<string, string>>)
    returns (triple: Classification, cache: map<string, string>, calls: nat, ghost saves: seq<map<string, string>>)
    ensures var (t, r) := RowStep(Session(cache0, calls0, saves0), env, row);
            && triple == r && cache == t.cache && calls == t.calls
    ensures saves == RowStep(Session(cache0, calls0, saves0), env, row).0.saves
  {
    cache, calls, saves := cache0, calls0, saves0;
    match row.strategyCodes {
      case None =>
        triple := RowError(row, MissingCodesMessage);
      case Some(text) =>
        var rowResults, failure;
        rowResults, failure, cache, calls, saves := ClassifyCodes(env, row, Codes(text), cache, calls, saves);
        match failure {
          case Some(message) =>
            triple := RowError(row, message);
          case None =>
            triple := Joined(rowResults);
        }
    }
  }

  method ProcessCsvAndSave(df: DataFrame, env: Env, loaded: map<string, string>)
    returns (outcome: Outcome, cache: map<string, string>, calls: nat, ghost saves: seq<map<string, string>>)
    ensures (outcome, Session(cache, calls, saves)) == Job(df, env, loaded)
    ensures outcome.ColumnsMissing? <==> !ValidateColumns(df.columns, RequiredColumns)
    ensures outcome.ColumnsMissing? ==> cache == loaded && calls == 0 && saves == []
    ensures outcome.Written? ==> |outcome.agreements| == |outcome.strategies| == |outcome.explanations| == |df.rows|
  {
    cache, calls, saves := loaded, 0, [];
    if !ValidateColumns(df.columns, RequiredColumns) {
      return ColumnsMissing, cache, calls, saves;
    }
    ghost var s0 := Session(loaded, 0, []);
    var agreements, strategies, explanations := [], [], [];
    ghost var results: seq<Classification> := [];
    var i := 0;
    while i < |df.rows|
      invariant 0 <= i <= |df.rows| && |results| == i
      invariant agreements == Agreements(results) && strategies == Strategies(results)
      invariant explanations == Explanations(results)
      invariant RowsRun(s0, env, df.rows, []) == RowsRun(Session(cache, calls, saves), env, df.rows[i..], results)
    {
      var row := df.rows[i];
      var triple;
      assert df.rows[i..][0] == row && df.rows[i..][1..] == df.rows[i + 1..];
      triple, cache, calls, saves := ClassifyRow(env, row, cache, calls, saves);
      ColumnsAppend(results, triple);
      agreements := agreements + [triple.agreement];
      strategies := strategies + [triple.strategy];
      explanations := explanations + [triple.explanation];
      results := results + [triple];
      i := i + 1;
    }
    RowsRunAligned(s0, env, df.rows, []);
    // the length check before the columns are assigned never fires
    assert |agreements| == |df.rows|;
    outcome := Written(agreements, strategies, explanations);
  }

  // ---------------------------------------------------------------------------------------
  // Properties of the job

  /** Every row contributes exactly one triple, whether it succeeds or fails. */
  lemma {:induction false} RowsRunAligned(s: Session, env: Env, rows: seq<Row>, acc: seq<Classification>)
    ensures |RowsRun(s, env, rows, acc).1| == |acc| + |rows|
    ensures RowsRun(s, env, rows, acc).1[..|acc|] == acc
    decreases |rows|
  {
    if rows != [] {
      var (s1, t) := RowStep(s, env, rows[0]);
      RowsRunAligned(s1, env, rows[1..], acc + [t]);
    }
  }

  /** Within a row that succeeds, there is one result per element of the split code list. */
  lemma {:induction false} CodesRunAligned(s: Session, env: Env, row: Row, codes: seq<string>, acc: seq<Classification>)
    ensures CodesRun(s, env, row, codes, acc).1.Done? ==>
            |CodesRun(s, env, row, codes, acc).1.value| == |acc| + |codes| &&
            CodesRun(s, env, row, codes, acc).1.value[..|acc|] == acc
    decreases |codes|
  {
    if codes != [] {
      var (s1, r) := CodeStep(s, env, row, codes[0]);
      if r.Done? {
        CodesRunAligned(s1, env, row, codes[1..], acc + [r.value]);
      }
    }
  }

  /** The k-th cached result belongs to the k-th code. */
  lemma {:induction false} CachedCodesAt(cache: map<string, string>, strategyDict: map<string, string>, row: Row,
                                         codes: seq<string>)
    ensures |CachedCodes(cache, strategyDict, row, codes)| == |codes|
    ensures forall k :: 0 <= k < |codes| ==> CachedCodes(cache, strategyDict, row, codes)[k] == CachedCode(cache, strategyDict, row, codes[k])
    decreases |codes|
  {
    if codes != [] {
      CachedCodesAt(cache, strategyDict, row, codes[1..]);
    }
  }

  /**
   * `t` is a later state of `s`: no entry of the cache is removed or changed, the request count
   * and the save log only grow, each save adds exactly one key, and each added key cost one request.
   */
  ghost predicate Extends(s: Session, t: Session)
  {
    && (forall k :: k in s.cache ==> k in t.cache && t.cache[k] == s.cache[k])
    && s.calls <= t.calls
    && |s.saves| <= |t.saves| && t.saves[..|s.saves|] == s.saves
    && |t.saves| - |s.saves| == |t.cache| - |s.cache|
    && |t.saves| - |s.saves| <= t.calls - s.calls
  }

  /** The last save holds the whole current cache (the loaded one before any save). */
  ghost predicate Flushed(s: Session, loaded: map<string, string>)
  {
    s.cache == if s.saves == [] then loaded else s.saves[|s.saves| - 1]
  }

  lemma ExtendsTransitive(a: Session, b: Session, c: Session)
    requires Extends(a, b) && Extends(b, c)
    ensures Extends(a, c)
  {
  }

  /**
   * One code leaves a later state: no cache entry is removed or changed, and there are as many new
   * saves as new keys, at most one per request. If the last save held the cache, it still does.
   */
  lemma CodeStepExtends(s: Session, env: Env, row: Row, code: string, loaded: map<string, string>)
    ensures Extends(s, CodeStep(s, env, row, code).0)
    ensures Flushed(s, loaded) ==> Flushed(CodeStep(s, env, row, code).0, loaded)
  {
  }

  lemma {:induction false} CodesRunExtends(s: Session, env: Env, row: Row, codes: seq<string>,
                                           acc: seq<Classification>, loaded: map<string, string>)
    ensures Extends(s, CodesRun(s, env, row, codes, acc).0)
    ensures Flushed(s, loaded) ==> Flushed(CodesRun(s, env, row, codes, acc).0, loaded)
    decreases |codes|
  {
    if codes == [] {
      assert s.saves[..|s.saves|] == s.saves;
    } else {
      var (s1, r) := CodeStep(s, env, row, codes[0]);
      CodeStepExtends(s, env, row, codes[0], loaded);
      if r.Done? {
        CodesRunExtends(s1, env, row, codes[1..], acc + [r.value], loaded);
        ExtendsTransitive(s, s1, CodesRun(s, env, row, codes, acc).0);
      }
    }
  }

  lemma RowStepExtends(s: Session, env: Env, row: Row, loaded: map<string, string>)
    ensures Extends(s, RowStep(s, env, row).0)
    ensures Flushed(s, loaded) ==> Flushed(RowStep(s, env, row).0, loaded)
  {
    match row.strategyCodes
    case None =>
      assert s.saves[..|s.saves|] == s.saves;
    case Some(text) =>
      CodesRunExtends(s, env, row, Codes(text), [], loaded);
  }

  /**
   * Over a whole run the response cache only grows: an entry, once there, is never changed, the
   * save log is only appended to, and every change of the cache is saved at once.
   */
  lemma {:induction false} RowsRunExtends(s: Session, env: Env, rows: seq<Row>, acc: seq<Classification>,
                                          loaded: map<string, string>)
    ensures Extends(s, RowsRun(s, env, rows, acc).0)
    ensures Flushed(s, loaded) ==> Flushed(RowsRun(s, env, rows, acc).0, loaded)
    decreases |rows|
  {
    if rows == [] {
      assert s.saves[..|s.saves|] == s.saves;
    } else {
      var (s1, t) := RowStep(s, env, rows[0]);
      RowStepExtends(s, env, rows[0], loaded);
      RowsRunExtends(s1, env, rows[1..], acc + [t], loaded);
      ExtendsTransitive(s, s1, RowsRun(s, env, rows, acc).0);
    }
  }

  /**
   * A row whose client call raises yields the error triple, whose third field is the constant of
   * `handle_row_error` whatever the exception's text, and the cache writes made earlier in that
   * row persist.
   */
  lemma RowErrorKeepsWrites(s: Session, env: Env, row: Row)
    requires row.strategyCodes.Some? && CodesRun(s, env, row, Codes(row.strategyCodes.value), []).1.Raised?
    ensures RowStep(s, env, row).1 == Classification("Error", "Error", "Error in OpenAI response")
    ensures RowStep(s, env, row).0 == CodesRun(s, env, row, Codes(row.strategyCodes.value), []).0
    ensures Extends(s, RowStep(s, env, row).0)
  {
    RowStepExtends(s, env, row, s.cache);
  }

  /** A missing codes cell fails the row before any code is looked at: the error triple, and no state change. */
  lemma MissingCodesRow(s: Session, env: Env, row: Row)
    requires row.strategyCodes.None?
    ensures RowStep(s, env, row) == (s, Classification("Error", "Error", "Error in OpenAI response"))
  {
  }

  /**
   * A code of the dictionary goes on to the cache: a hit is parsed from the cached reply with no
   * request, and a miss issues exactly one request for the row's prompt. A reply is stored under
   * the key, the updated cache is saved once, and that same reply is parsed; an exception leaves
   * the cache and the saves as they were and is passed on.
   */
  lemma ValidCodeConsultsCache(s: Session, env: Env, row: Row, code: string)
    requires code in env.strategyDict
    ensures KeyFor(row, code) in s.cache ==>
            CodeStep(s, env, row, code) == (s, Done(ParseOpenAiResponse(s.cache[KeyFor(row, code)])))
    ensures KeyFor(row, code) !in s.cache ==>
            && CodeStep(s, env, row, code).0.calls == s.calls + 1
            && (env.client(s.calls, PromptFor(row, code)).Raised? <==> CodeStep(s, env, row, code).1.Raised?)
    ensures KeyFor(row, code) !in s.cache && env.client(s.calls, PromptFor(row, code)).Done? ==>
            var reply := env.client(s.calls, PromptFor(row, code)).value;
            var c := s.cache[KeyFor(row, code) := reply];
            CodeStep(s, env, row, code) == (Session(c, s.calls + 1, s.saves + [c]), Done(ParseOpenAiResponse(reply)))
    ensures KeyFor(row, code) !in s.cache && env.client(s.calls, PromptFor(row, code)).Raised? ==>
            var message := env.client(s.calls, PromptFor(row, code)).message;
            CodeStep(s, env, row, code) == (Session(s.cache, s.calls + 1, s.saves), Raised(message))
  {
  }

  /** An invalid code yields the "Invalid" triple and touches neither the cache nor the client. */
  lemma InvalidCodeUntouched(s: Session, env: Env, row: Row, code: string)
    requires code !in env.strategyDict
    ensures CodeStep(s, env, row, code) == (s, Done(Classification("Invalid", "Invalid strategy code: " + code, "")))
  {
  }

  // ---------------------------------------------------------------------------------------
  // Runs over a cache that already holds every key

  /** Every valid code of `codes` has its key in `cache`. */
  ghost predicate CodesCached(cache: map<string, string>, strategyDict: map<string, string>, row: Row, codes: seq<string>)
  {
    forall code :: code in codes && code in strategyDict ==> KeyFor(row, code) in cache
  }

  /** Every valid code of every row has its key in `cache`. */
  ghost predicate AllCached(cache: map<string, string>, strategyDict: map<string, string>, rows: seq<Row>)
  {
    forall row :: row in rows && row.strategyCodes.Some? ==>
      CodesCached(cache, strategyDict, row, Codes(row.strategyCodes.value))
  }

  /** The result of one code read from the cache alone (the last branch is not reached under `CodesCached`). */
  function CachedCode(cache: map<string, string>, strategyDict: map<string, string>, row: Row, code: string): Classification
  {
    if code !in strategyDict then InvalidResult(code)
    else if KeyFor(row, code) in cache then ParseOpenAiResponse(cache[KeyFor(row, code)])
    else ParseError
  }

  function CachedCodes(cache: map<string, string>, strategyDict: map<string, string>, row: Row, codes: seq<string>)
    : seq<Classification>
  {
    if codes == [] then [] else [CachedCode(cache, strategyDict, row, codes[0])] + CachedCodes(cache, strategyDict, row, codes[1..])
  }

  function CachedRow(cache: map<string, string>, strategyDict: map<string, string>, row: Row): Classification
  {
    match row.strategyCodes
    case None => RowError(row, MissingCodesMessage)
    case Some(text) => Joined(CachedCodes(cache, strategyDict, row, Codes(text)))
  }

  function CachedRows(cache: map<string, string>, strategyDict: map<string, string>, rows: seq<Row>): seq<Classification>
  {
    if rows == [] then [] else [CachedRow(cache, strategyDict, rows[0])] + CachedRows(cache, strategyDict, rows[1..])
  }

  lemma {:induction false} CodesRunCached(s: Session, env: Env, row: Row, codes: seq<string>, acc: seq<Classification>)
    requires CodesCached(s.cache, env.strategyDict, row, codes)
    ensures CodesRun(s, env, row, codes, acc) == (s, Done(acc + CachedCodes(s.cache, env.strategyDict, row, codes)))
    decreases |codes|
  {
    if codes != [] {
      var c := CachedCode(s.cache, env.strategyDict, row, codes[0]);
      assert codes[0] in codes;
      assert CodeStep(s, env, row, codes[0]) == (s, Done(c));
      assert CodesRun(s, env, row, codes, acc) == CodesRun(s, env, row, codes[1..], acc + [c]);
      assert forall code :: code in codes[1..] ==> code in codes;
      CodesRunCached(s, env, row, codes[1..], acc + [c]);
      assert acc + [c] + CachedCodes(s.cache, env.strategyDict, row, codes[1..])
          == acc + CachedCodes(s.cache, env.strategyDict, row, codes);
    } else {
      assert acc + [] == acc;
    }
  }

  /**
   * When every valid key is already cached, the client is never called, the session (cache,
   * request count, saves) is unchanged, and each row's output is read from the cache alone.
   */
  lemma {:induction false} RowsRunCached(s: Session, env: Env, rows: seq<Row>, acc: seq<Classification>)
    requires AllCached(s.cache, env.strategyDict, rows)
    ensures RowsRun(s, env, rows, acc) == (s, acc + CachedRows(s.cache, env.strategyDict, rows))
    decreases |rows|
  {
    if rows != [] {
      var row := rows[0];
      assert row in rows;
      if row.strategyCodes.Some? {
        var codes := Codes(row.strategyCodes.value);
        CodesRunCached(s, env, row, codes, []);
        assert [] + CachedCodes(s.cache, env.strategyDict, row, codes) == CachedCodes(s.cache, env.strategyDict, row, codes);
      }
      assert forall r :: r in rows[1..] ==> r in rows;
      var t := CachedRow(s.cache, env.strategyDict, row);
      assert RowStep(s, env, row) == (s, t);
      RowsRunCached(s, env, rows[1..], acc + [t]);
      assert acc + [t] + CachedRows(s.cache, env.strategyDict, rows[1..]) == acc + CachedRows(s.cache, env.strategyDict, rows);
    } else {
      assert acc + [] == acc;
    }
  }

  // ---------------------------------------------------------------------------------------
  // Runs with a client that never raises fill the cache

  ghost predicate NeverRaises(client: Client)
  {
    forall n: nat, p: Prompt :: client(n, p).Done?
  }

  /** Extending the cache does not change what is read from it for codes already cached. */
  lemma {:induction false} CachedCodesStable(c1: map<string, string>, c2: map<string, string>,
                                             strategyDict: map<string, string>, row: Row, codes: seq<string>)
    requires CodesCached(c1, strategyDict, row, codes)
    requires forall k :: k in c1 ==> k in c2 && c2[k] == c1[k]
    ensures CodesCached(c2, strategyDict, row, codes)
    ensures CachedCodes(c2, strategyDict, row, codes) == CachedCodes(c1, strategyDict, row, codes)
    decreases |codes|
  {
    if codes != [] {
      CachedCodesStable(c1, c2, strategyDict, row, codes[1..]);
    }
  }

  lemma CachedRowStable(c1: map<string, string>, c2: map<string, string>, strategyDict: map<string, string>, row: Row)
    requires row.strategyCodes.Some? ==> CodesCached(c1, strategyDict, row, Codes(row.strategyCodes.value))
    requires forall k :: k in c1 ==> k in c2 && c2[k] == c1[k]
    ensures row.strategyCodes.Some? ==> CodesCached(c2, strategyDict, row, Codes(row.strategyCodes.value))
    ensures CachedRow(c2, strategyDict, row) == CachedRow(c1, strategyDict, row)
  {
    if row.strategyCodes.Some? {
      CachedCodesStable(c1, c2, strategyDict, row, Codes(row.strategyCodes.value));
    }
  }

  lemma {:induction false} CodesRunFills(s: Session, env: Env, row: Row, codes: seq<string>, acc: seq<Classification>)
    requires NeverRaises(env.client)
    ensures var (t, r) := CodesRun(s, env, row, codes, acc);
            && r == Done(acc + CachedCodes(t.cache, env.strategyDict, row, codes))
            && CodesCached(t.cache, env.strategyDict, row, codes)
            && t.calls - s.calls == |t.saves| - |s.saves|
    decreases |codes|
  {
    var (t, r) := CodesRun(s, env, row, codes, acc);
    if codes != [] {
      var code := codes[0];
      var (s1, r1) := CodeStep(s, env, row, code);
      assert env.client(s.calls, PromptFor(row, code)).Done?;
      var c := r1.value;
      assert c == CachedCode(s1.cache, env.strategyDict, row, code);
      assert code in env.strategyDict ==> KeyFor(row, code) in s1.cache;
      CodesRunFills(s1, env, row, codes[1..], acc + [c]);
      CodesRunExtends(s1, env, row, codes[1..], acc + [c], s1.cache);
      assert CodesCached(s1.cache, env.strategyDict, row, [code]);
      CachedCodesStable(s1.cache, t.cache, env.strategyDict, row, [code]);
      assert CachedCodes(t.cache, env.strategyDict, row, [code]) == [CachedCode(t.cache, env.strategyDict, row, code)];
      assert CachedCodes(t.cache, env.strategyDict, row, codes)
          == [c] + CachedCodes(t.cache, env.strategyDict, row, codes[1..]);
      Associative(acc, [c], CachedCodes(t.cache, env.strategyDict, row, codes[1..]));
    } else {
      assert acc + [] == acc;
    }
  }

  /**
   * For any client: when a row's codes run to the end without a raise, every valid key is cached
   * and result k is what the final cache gives for code k, in the order of the codes.
   */
  lemma {:induction false} CodesRunOrdered(s: Session, env: Env, row: Row, codes: seq<string>, acc: seq<Classification>)
    ensures var (t, r) := CodesRun(s, env, row, codes, acc);
            r.Done? ==>
              && r.value == acc + CachedCodes(t.cache, env.strategyDict, row, codes)
              && CodesCached(t.cache, env.strategyDict, row, codes)
              && |r.value| == |acc| + |codes|
              && (forall k :: 0 <= k < |codes| ==> r.value[|acc| + k] == CachedCode(t.cache, env.strategyDict, row, codes[k]))
    decreases |codes|
  {
    var (t, r) := CodesRun(s, env, row, codes, acc);
    if codes != [] {
      var code := codes[0];
      var (s1, r1) := CodeStep(s, env, row, code);
      if r1.Done? {
        var c := r1.value;
        assert c == CachedCode(s1.cache, env.strategyDict, row, code);
        assert code in env.strategyDict ==> KeyFor(row, code) in s1.cache;
        CodesRunOrdered(s1, env, row, codes[1..], acc + [c]);
        CodesRunExtends(s1, env, row, codes[1..], acc + [c], s1.cache);
        assert CodesCached(s1.cache, env.strategyDict, row, [code]);
        CachedCodesStable(s1.cache, t.cache, env.strategyDict, row, [code]);
        assert CachedCodes(t.cache, env.strategyDict, row, [code]) == [CachedCode(t.cache, env.strategyDict, row, code)];
        assert CachedCodes(t.cache, env.strategyDict, row, codes)
            == [c] + CachedCodes(t.cache, env.strategyDict, row, codes[1..]);
        Associative(acc, [c], CachedCodes(t.cache, env.strategyDict, row, codes[1..]));
      }
    } else {
      assert acc + [] == acc;
    }
    CachedCodesAt(t.cache, env.strategyDict, row, codes);
  }

  lemma RowStepFills(s: Session, env: Env, row: Row)
    requires NeverRaises(env.client)
    ensures var (t, triple) := RowStep(s, env, row);
            && triple == CachedRow(t.cache, env.strategyDict, row)
            && (row.strategyCodes.Some? ==> CodesCached(t.cache, env.strategyDict, row, Codes(row.strategyCodes.value)))
            && t.calls - s.calls == |t.saves| - |s.saves|
  {
    if row.strategyCodes.Some? {
      var codes := Codes(row.strategyCodes.value);
      CodesRunFills(s, env, row, codes, []);
      var t := CodesRun(s, env, row, codes, []).0;
      assert [] + CachedCodes(t.cache, env.strategyDict, row, codes) == CachedCodes(t.cache, env.strategyDict, row, codes);
    } else {
      assert s.calls - s.calls == |s.saves| - |s.saves|;
    }
  }

  /**
   * With a client that never raises, a run leaves every valid key of every row in the cache,
   * every request is followed by exactly one save, and each row's output is what the final
   * cache gives for it.
   */
  lemma {:induction false} RowsRunFills(s: Session, env: Env, rows: seq<Row>, acc: seq<Classification>)
    requires NeverRaises(env.client)
    ensures var (t, out) := RowsRun(s, env, rows, acc);
            && out == acc + CachedRows(t.cache, env.strategyDict, rows)
            && AllCached(t.cache, env.strategyDict, rows)
            && t.calls - s.calls == |t.saves| - |s.saves|
    decreases |rows|
  {
    if rows != [] {
      var row := rows[0];
      var (s1, triple) := RowStep(s, env, row);
      RowStepFills(s, env, row);
      var (t, out) := RowsRun(s1, env, rows[1..], acc + [triple]);
      RowsRunFills(s1, env, rows[1..], acc + [triple]);
      RowsRunExtends(s1, env, rows[1..], acc + [triple], s1.cache);
      CachedRowStable(s1.cache, t.cache, env.strategyDict, row);
      assert CachedRows(t.cache, env.strategyDict, rows)
          == [CachedRow(t.cache, env.strategyDict, row)] + CachedRows(t.cache, env.strategyDict, rows[1..]);
      Associative(acc, [triple], CachedRows(t.cache, env.strategyDict, rows[1..]));
      forall r | r in rows && r.strategyCodes.Some?
        ensures CodesCached(t.cache, env.strategyDict, r, Codes(r.strategyCodes.value))
      {
        if r != row {
          assert r in rows[1..];
        }
      }
    }
  }

  lemma Associative<T>(a: seq<T>, b: seq<T>, c: seq<T>)
    ensures a + b + c == a + (b + c)
  {
  }

  /**
   * Running the job a second time over the cache the first run left (with a client that never
   * raised) calls no client, saves nothing, leaves the cache as it is and writes the same columns,
   * whatever the second client would have answered.
   */
  lemma RerunIsIdempotent(df: DataFrame, env: Env, loaded: map<string, string>, second: Client)
    requires NeverRaises(env.client)
    ensures var (first, s1) := Job(df, env, loaded);
            Job(df, env.(client := second), s1.cache) == (first, Session(s1.cache, 0, []))
  {
    var (first, s1) := Job(df, env, loaded);
    if ValidateColumns(df.columns, RequiredColumns) {
      var s0 := Session(loaded, 0, []);
      RowsRunFills(s0, env, df.rows, []);
      var env2 := env.(client := second);
      RowsRunCached(Session(s1.cache, 0, []), env2, df.rows, []);
      assert [] + CachedRows(s1.cache, env.strategyDict, df.rows) == CachedRows(s1.cache, env.strategyDict, df.rows);
    }
  }

  /** The job as a whole: the new columns align with the rows and the cache only grows and is flushed. */
  lemma JobInvariants(df: DataFrame, env: Env, loaded: map<string, string>)
    ensures var (outcome, s) := Job(df, env, loaded);
            && (outcome.Written? ==> |outcome.agreements| == |outcome.strategies| == |outcome.explanations| == |df.rows|)
            && Extends(Session(loaded, 0, []), s)
            && Flushed(s, loaded)
  {
    var s0 := Session(loaded, 0, []);
    RowsRunAligned(s0, env, df.rows, []);
    RowsRunExtends(s0, env, df.rows, [], loaded);
    assert s0.saves[..0] == s0.saves;
  }
}
