/** `cli_provider_loop.py`: indexes with several embedding providers in turn. Each
    turn sets the shared configuration to its provider and puts it back, so that
    what one provider does cannot reach the next. */
module ProviderLoop {
  import opened Text

  datatype Status = Success | Failed | Skipped

  datatype ProviderResult =
    ProviderResult(status: Status, error: Option<string>, latency: real, filesIndexed: nat, chunksIndexed: nat)

  datatype Outcome<+T> = Ok(value: T) | Raises(error: string)

  datatype Indexed = Indexed(files: nat, chunks: nat)

  /** How the outside world answers in one turn. Every answer may depend on the
      provider that the shared configuration names at that moment. */
  datatype Script = Script(
    healthCheck: (string, string) -> Outcome<bool>,
    resolveCollection: string -> Outcome<string>,
    createIndexer: (string, string) -> Outcome<()>,
    indexCommits: string -> Outcome<Indexed>,
    elapsed: real)

  /** What happens to the indexer of turn `turn`. */
  datatype Action = Created(turn: nat) | MarkedFailed(turn: nat) | Closed(turn: nat)

  class Config {
    var embeddingProvider: string

    constructor (provider: string)
      ensures embeddingProvider == provider
    {
      embeddingProvider := provider;
    }
  }

  class ConfigManager {
    var config: Config

    constructor (config: Config)
      ensures this.config == config
    {
      this.config := config;
    }
  }

  /** The steps of a turn up to a result or an error, and whether an indexer exists. */
  function Attempt(s: Script, name: string, original: string): (Outcome<Option<Indexed>>, bool) {
    match s.healthCheck(original, name)
    case Raises(e) => (Raises(e), false)
    case Ok(healthy) =>
      if !healthy then (Ok(None), false)
      else
        match s.resolveCollection(name)
        case Raises(e) => (Raises(e), false)
        case Ok(collection) =>
          match s.createIndexer(name, collection)
          case Raises(e) => (Raises(e), false)
          case Ok(_) =>
            match s.indexCommits(name)
            case Raises(e) => (Raises(e), true)
            case Ok(n) => (Ok(Some(n)), true)
  }

  /** The result a turn records: a function of its own answers alone. */
  function Recorded(s: Script, name: string, original: string): ProviderResult {
    match Attempt(s, name, original).0
    case Raises(e) => ProviderResult(Failed, Some(e), s.elapsed, 0, 0)
    case Ok(None) => ProviderResult(Skipped, None, 0.0, 0, 0)
    case Ok(Some(n)) => ProviderResult(Success, None, s.elapsed, n.files, n.chunks)
  }

  /** What a turn does to its indexer. */
  function TurnLog(s: Script, name: string, original: string, turn: nat): seq<Action> {
    var (outcome, created) := Attempt(s, name, original);
    if !created then []
    else if outcome.Raises? then [Created(turn), MarkedFailed(turn), Closed(turn)]
    else [Created(turn), Closed(turn)]
  }

  /** The result dictionary after the first `n` turns; a repeated name keeps its last result. */
  function Results(names: seq<string>, scripts: seq<Script>, original: string, n: nat): map<string, ProviderResult>
    requires n <= |names| == |scripts|
  {
    if n == 0 then map[]
    else Results(names, scripts, original, n - 1)[names[n - 1] := Recorded(scripts[n - 1], names[n - 1], original)]
  }

  function Log(names: seq<string>, scripts: seq<Script>, original: string, n: nat): seq<Action>
    requires n <= |names| == |scripts|
  {
    if n == 0 then [] else Log(names, scripts, original, n - 1) + TurnLog(scripts[n - 1], names[n - 1], original, n - 1)
  }

  /** One turn of the loop, from `try` to the end of `finally`. */
  method Turn(name: string, config: Config, manager: ConfigManager, s: Script, turn: nat)
    returns (result: ProviderResult, log: seq<Action>)
    modifies config, manager
    ensures config.embeddingProvider == old(config.embeddingProvider) && manager.config == config
    ensures result == Recorded(s, name, old(config.embeddingProvider))
    ensures log == TurnLog(s, name, old(config.embeddingProvider), turn)
  {
    log := [];
    var original := config.embeddingProvider;
    var hasIndexer := false;
    var error: Option<string> := None;
    result := ProviderResult(Skipped, None, 0.0, 0, 0);
    var healthy := s.healthCheck(config.embeddingProvider, name);
    if healthy.Raises? {
      error := Some(healthy.error);
    } else if healthy.value {
      config.embeddingProvider := name;
      manager.config := config;
      var collection := s.resolveCollection(config.embeddingProvider);
      if collection.Raises? {
        error := Some(collection.error);
      } else {
        var indexer := s.createIndexer(manager.config.embeddingProvider, collection.value);
        if indexer.Raises? {
          error := Some(indexer.error);
        } else {
          hasIndexer := true;
          log := log + [Created(turn)];
          var indexed := s.indexCommits(manager.config.embeddingProvider);
          if indexed.Raises? {
            error := Some(indexed.error);
          } else {
            result := ProviderResult(Success, None, s.elapsed, indexed.value.files, indexed.value.chunks);
          }
        }
      }
    }
    if error.Some? {
      if hasIndexer { log := log + [MarkedFailed(turn)]; }
      result := ProviderResult(Failed, error, s.elapsed, 0, 0);
    }
    if hasIndexer { log := log + [Closed(turn)]; }
    config.embeddingProvider := original;
    manager.config := config;
  }

  /** The whole loop. */
  method RunExtraProviderTemporalLoop(extraProviders: seq<string>, config: Config, manager: ConfigManager, scripts: seq<Script>)
    returns (results: map<string, ProviderResult>, log: seq<Action>)
    requires |scripts| == |extraProviders|
    modifies config, manager
    ensures config.embeddingProvider == old(config.embeddingProvider)
    ensures manager.config == if extraProviders == [] then old(manager.config) else config
    ensures results == Results(extraProviders, scripts, old(config.embeddingProvider), |extraProviders|)
    ensures log == Log(extraProviders, scripts, old(config.embeddingProvider), |extraProviders|)
  {
    results, log := map[], [];
    for i := 0 to |extraProviders|
      invariant config.embeddingProvider == old(config.embeddingProvider)
      invariant manager.config == if i == 0 then old(manager.config) else config
      invariant results == Results(extraProviders, scripts, old(config.embeddingProvider), i)
      invariant log == Log(extraProviders, scripts, old(config.embeddingProvider), i)
    {
      var result, actions := Turn(extraProviders[i], config, manager, scripts[i], i);
      results := results[extraProviders[i] := result];
      log := log + actions;
    }
  }

  // ----- what a turn records, from its answers alone -----

  /** The health check answers, and positively. */
  predicate Healthy(s: Script, name: string, original: string) { s.healthCheck(original, name) == Ok(true) }

  predicate Resolves(s: Script, name: string, original: string) {
    Healthy(s, name, original) && s.resolveCollection(name).Ok?
  }

  /** An indexer is created, for the provider and its collection. */
  predicate Creates(s: Script, name: string, original: string) {
    Resolves(s, name, original) && s.createIndexer(name, s.resolveCollection(name).value).Ok?
  }

  predicate Indexes(s: Script, name: string, original: string) {
    Creates(s, name, original) && s.indexCommits(name).Ok?
  }

  /** A turn fails: the health check raises, or it is positive and something behind it raises. */
  predicate Fails(s: Script, name: string, original: string) {
    s.healthCheck(original, name).Raises? || (Healthy(s, name, original) && !Indexes(s, name, original))
  }

  /** The status in terms of the answers, the error of the first one that raises, and the
      counts returned. */
  lemma RecordedMeaning(s: Script, name: string, original: string)
    ensures
      var r := Recorded(s, name, original);
      && (r.status == Skipped <==> s.healthCheck(original, name) == Ok(false))
      && (r.status == Failed <==> Fails(s, name, original))
      && (r.status == Success <==> Indexes(s, name, original))
      && (r.status == Skipped ==> r == ProviderResult(Skipped, None, 0.0, 0, 0))
      && (r.status == Failed ==> r.latency == s.elapsed && r.filesIndexed == r.chunksIndexed == 0)
      && (s.healthCheck(original, name).Raises? ==> r.error == Some(s.healthCheck(original, name).error))
      && (Healthy(s, name, original) && s.resolveCollection(name).Raises? ==> r.error == Some(s.resolveCollection(name).error))
      && (Resolves(s, name, original) && !Creates(s, name, original) ==>
            r.error == Some(s.createIndexer(name, s.resolveCollection(name).value).error))
      && (Creates(s, name, original) && s.indexCommits(name).Raises? ==> r.error == Some(s.indexCommits(name).error))
      && (Indexes(s, name, original) ==>
            && r.error == None && r.latency == s.elapsed
            && Indexed(r.filesIndexed, r.chunksIndexed) == s.indexCommits(name).value)
  {
    match s.healthCheck(original, name)
    case Raises(e) =>
    case Ok(healthy) =>
      if healthy {
        match s.resolveCollection(name)
        case Raises(e) =>
        case Ok(collection) =>
          match s.createIndexer(name, collection)
          case Raises(e) =>
          case Ok(_) =>
      }
  }

  // ----- what the loop guarantees -----

  predicate IsLast(names: seq<string>, i: int, n: nat)
    requires n <= |names|
  {
    0 <= i < n && forall j | i < j < n :: names[j] != names[i]
  }

  lemma {:induction false} KeysAreNames(names: seq<string>, scripts: seq<Script>, original: string, n: nat)
    requires n <= |names| == |scripts|
    ensures Results(names, scripts, original, n).Keys == set k | 0 <= k < n :: names[k]
  {
    hide Recorded;
    if n > 0 { KeysAreNames(names, scripts, original, n - 1); }
  }

  lemma {:induction false} LastTurnCounts(names: seq<string>, scripts: seq<Script>, original: string, n: nat, i: nat)
    requires n <= |names| == |scripts| && IsLast(names, i, n)
    ensures names[i] in Results(names, scripts, original, n)
    ensures Results(names, scripts, original, n)[names[i]] == Recorded(scripts[i], names[i], original)
  {
    hide Recorded;
    if i < n - 1 {
      assert names[n - 1] != names[i];
      assert IsLast(names, i, n - 1);
      LastTurnCounts(names, scripts, original, n - 1, i);
    }
  }

  /** The keys are exactly the listed providers, and each holds the result of its
      own last turn. */
  lemma ResultsMeaning(names: seq<string>, scripts: seq<Script>, original: string, n: nat)
    requires n <= |names| == |scripts|
    ensures Results(names, scripts, original, n).Keys == set k | 0 <= k < n :: names[k]
    ensures forall i | IsLast(names, i, n) ::
              Results(names, scripts, original, n)[names[i]] == Recorded(scripts[i], names[i], original)
  {
    hide Results, Recorded;
    KeysAreNames(names, scripts, original, n);
    forall i | IsLast(names, i, n)
      ensures names[i] in Results(names, scripts, original, n)
      ensures Results(names, scripts, original, n)[names[i]] == Recorded(scripts[i], names[i], original)
    {
      LastTurnCounts(names, scripts, original, n, i);
    }
  }

  /** Non-interference: for every provider listed in two runs, over any two lists, whose last
      turn gets the same answers in both, the same result is recorded, whatever the other
      providers are and do. */
  lemma NonInterference(names: seq<string>, a: seq<Script>, names': seq<string>, b: seq<Script>, original: string, name: string)
    requires |names| == |a| && |names'| == |b| && name in names && name in names'
    requires forall i, j | IsLast(names, i, |names|) && names[i] == name && IsLast(names', j, |names'|) && names'[j] == name :: a[i] == b[j]
    ensures name in Results(names, a, original, |names|) && name in Results(names', b, original, |names'|)
    ensures Results(names, a, original, |names|)[name] == Results(names', b, original, |names'|)[name]
  {
    hide Results, Recorded;
    var i := LastIndex(names, name);
    var j := LastIndex(names', name);
    LastTurnCounts(names, a, original, |names|, i);
    LastTurnCounts(names', b, original, |names'|, j);
  }

  /** Every listed provider has a last turn. */
  lemma {:induction false} LastIndex(names: seq<string>, name: string) returns (i: nat)
    requires name in names
    ensures i < |names| && names[i] == name && IsLast(names, i, |names|)
  {
    var n := |names| - 1;
    if names[n] == name {
      i := n;
    } else {
      i := LastIndex(names[..n], name);
    }
  }

  function Count(log: seq<Action>, a: Action): nat {
    if log == [] then 0 else (if log[0] == a then 1 else 0) + Count(log[1..], a)
  }

  lemma {:induction false} CountConcat(x: seq<Action>, y: seq<Action>, a: Action)
    ensures Count(x + y, a) == Count(x, a) + Count(y, a)
  {
    if x == [] {
      assert x + y == y;
    } else {
      CountConcat(x[1..], y, a);
      assert (x + y)[1..] == x[1..] + y;
    }
  }

  lemma TurnCounts(s: Script, name: string, original: string, turn: nat, k: nat)
    ensures var log := TurnLog(s, name, original, turn);
            && Count(log, Created(k)) == Count(log, Closed(k)) == (if k == turn && Creates(s, name, original) then 1 else 0)
            && Count(log, MarkedFailed(k)) == (if k == turn && Creates(s, name, original) && Fails(s, name, original) then 1 else 0)
            && (log != [] ==> log[|log| - 1] == Closed(turn))
  {
    CountThree(Created(turn), MarkedFailed(turn), Closed(turn), Created(k));
    CountThree(Created(turn), MarkedFailed(turn), Closed(turn), Closed(k));
    CountThree(Created(turn), MarkedFailed(turn), Closed(turn), MarkedFailed(k));
    CountTwo(Created(turn), Closed(turn), Created(k));
    CountTwo(Created(turn), Closed(turn), Closed(k));
    CountTwo(Created(turn), Closed(turn), MarkedFailed(k));
  }

  lemma CountTwo(a: Action, b: Action, x: Action)
    ensures Count([a, b], x) == (if a == x then 1 else 0) + (if b == x then 1 else 0)
  {
    assert [a, b][1..] == [b] && [b][1..] == [];
    assert Count([b], x) == (if b == x then 1 else 0) + Count([], x);
  }

  lemma CountThree(a: Action, b: Action, c: Action, x: Action)
    ensures Count([a, b, c], x) == (if a == x then 1 else 0) + (if b == x then 1 else 0) + (if c == x then 1 else 0)
  {
    assert [a, b, c][1..] == [b, c];
    CountTwo(b, c, x);
  }

  /** Every indexer that was created is closed exactly once, and marked as failed exactly if
      its turn fails. */
  lemma {:induction false} EveryIndexerClosedOnce(names: seq<string>, scripts: seq<Script>, original: string, n: nat, k: nat)
    requires n <= |names| == |scripts|
    ensures var log := Log(names, scripts, original, n);
            && Count(log, Created(k)) == Count(log, Closed(k)) == (if k < n && Creates(scripts[k], names[k], original) then 1 else 0)
            && Count(log, MarkedFailed(k)) ==
                 if k < n && Creates(scripts[k], names[k], original) && Fails(scripts[k], names[k], original) then 1 else 0
  {
    hide Creates, Fails, TurnLog;
    if n > 0 {
      EveryIndexerClosedOnce(names, scripts, original, n - 1, k);
      var turn := TurnLog(scripts[n - 1], names[n - 1], original, n - 1);
      CountConcat(Log(names, scripts, original, n - 1), turn, Created(k));
      CountConcat(Log(names, scripts, original, n - 1), turn, Closed(k));
      CountConcat(Log(names, scripts, original, n - 1), turn, MarkedFailed(k));
      TurnCounts(scripts[n - 1], names[n - 1], original, n - 1, k);
    }
  }

  predicate AnyWith(results: map<string, ProviderResult>, status: Status) {
    exists name | name in results :: results[name].status == status
  }

  function Active(results: map<string, ProviderResult>): map<string, ProviderResult> {
    map name | name in results && results[name].status != Skipped :: results[name]
  }

  /** The names with a status, for counting. */
  function NamesWith(results: map<string, ProviderResult>, status: Status): set<string> {
    set name | name in results && results[name].status == status
  }

  lemma ActiveHasAny(results: map<string, ProviderResult>, status: Status)
    requires status != Skipped
    ensures NamesWith(Active(results), status) != {} <==> AnyWith(results, status)
  {
    if AnyWith(results, status) {
      var name :| name in results && results[name].status == status;
      assert name in NamesWith(Active(results), status);
    }
    if NamesWith(Active(results), status) != {} {
      var name :| name in NamesWith(Active(results), status);
      assert name in results && results[name].status == status;
    }
  }

  /** `compute_exit_code`: 2 exactly when some provider succeeded and some failed, 1
      exactly when some failed and none succeeded, 0 in all other cases. */
  function ExitCode(results: map<string, ProviderResult>): (code: int)
    ensures code == 2 <==> AnyWith(results, Success) && AnyWith(results, Failed)
    ensures code == 1 <==> AnyWith(results, Failed) && !AnyWith(results, Success)
    ensures code == 0 <==> !AnyWith(results, Failed)
  {
    var active := Active(results);
    ActiveHasAny(results, Success);
    ActiveHasAny(results, Failed);
    if active == map[] then 0
    else
      var successes := |NamesWith(active, Success)|;
      var failures := |NamesWith(active, Failed)|;
      if failures == 0 then 0 else if successes == 0 then 1 else 2
  }

  /** Some listed provider's last turn indexed. */
  predicate SomeIndexes(names: seq<string>, scripts: seq<Script>, original: string)
    requires |names| == |scripts|
  {
    exists i | 0 <= i < |names| :: IsLast(names, i, |names|) && Indexes(scripts[i], names[i], original)
  }

  /** Some listed provider's last turn failed. */
  predicate SomeFails(names: seq<string>, scripts: seq<Script>, original: string)
    requires |names| == |scripts|
  {
    exists i | 0 <= i < |names| :: IsLast(names, i, |names|) && Fails(scripts[i], names[i], original)
  }

  lemma AnyIsSome(names: seq<string>, scripts: seq<Script>, original: string)
    requires |names| == |scripts|
    ensures var results := Results(names, scripts, original, |names|);
            && (AnyWith(results, Success) <==> SomeIndexes(names, scripts, original))
            && (AnyWith(results, Failed) <==> SomeFails(names, scripts, original))
  {
    hide Results, Recorded, Fails, Indexes;
    var n := |names|;
    var results := Results(names, scripts, original, n);
    ResultsMeaning(names, scripts, original, n);
    forall i | IsLast(names, i, n)
      ensures names[i] in results
      ensures results[names[i]].status == Success <==> Indexes(scripts[i], names[i], original)
      ensures results[names[i]].status == Failed <==> Fails(scripts[i], names[i], original)
    {
      LastTurnCounts(names, scripts, original, n, i);
      RecordedMeaning(scripts[i], names[i], original);
    }
    forall name | name in results ensures exists i :: IsLast(names, i, n) && names[i] == name {
      var i := LastIndex(names, name);
    }
  }

  /** The exit code of a whole run, in terms of the answers alone: 2 when some provider's last
      turn indexed and some failed, 1 when some failed and none indexed, else 0. */
  lemma RunExitCode(names: seq<string>, scripts: seq<Script>, original: string)
    requires |names| == |scripts|
    ensures ExitCode(Results(names, scripts, original, |names|)) ==
              if !SomeFails(names, scripts, original) then 0
              else if SomeIndexes(names, scripts, original) then 2 else 1
  {
    hide Results, SomeFails, SomeIndexes, AnyWith;
    AnyIsSome(names, scripts, original);
  }
}
