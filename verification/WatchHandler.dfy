/** The handler object: run alone, its methods are runs of the steps. */
module WatchHandler {
  import opened Text
  import opened WatchSteps
  import opened WatchLoss

  datatype EventPath = RefsDirectory | HeadFile | Elsewhere

  /** What git, the indexer and the disk answer during one handler; `loadUnread` and
      `markUnread` say that the progress file could not be read. */
  datatype Answers = Answers(
    loadRaises: bool, loadUnread: bool, revList: Option<string>, indexRaises: bool, mark: Mark, markUnread: bool)

  /** The step the answers make of loading the completed commits. */
  function LoadAction(answers: Answers): Action {
    if answers.loadRaises then LoadFails else if answers.loadUnread then LoadEmpty else Go
  }

  /** The events are one handler's, and the environment's part in them is `answers`. */
  predicate Follows(es: seq<Event>, t: Thread, indexer: bool, answers: Answers) {
    forall i :: 0 <= i < |es| ==> Heeds(es[i], t, indexer, answers)
  }

  predicate Heeds(e: Event, t: Thread, indexer: bool, answers: Answers) {
    e.Do? && e.thread == t &&
    match e.action
    case Go => true
    case LoadFails => answers.loadRaises
    case LoadEmpty => !answers.loadRaises && answers.loadUnread
    case GitFails => answers.revList.None?
    case RevList(out) => answers.revList == Some(out)
    case IndexOk => indexer && !answers.indexRaises
    case IndexFails => !indexer || answers.indexRaises
    case Marked(mark, unread) => mark == answers.mark && unread == answers.markUnread
    case _ => false
  }

  /** What git listed. */
  function Listed(answers: Answers): set<Commit> {
    if answers.revList.None? then {} else set c | c in Listing(answers.revList.value)
  }

  /** The new commits are the listed ones without the known ones; something is always listed. */
  lemma NewOfListed(answers: Answers, known: set<Commit>)
    requires answers.revList.Some?
    ensures New(Listing(answers.revList.value), known) == Listed(answers) - known
    ensures Listed(answers) != {}
    ensures Listed(answers) - known == {} <==> Listed(answers) <= known
  {
    var listing := Listing(answers.revList.value);
    assert listing[0] in Listed(answers);
    assert Listed(answers) - known == {} ==> forall c :: c in Listed(answers) ==> c in known || c in Listed(answers) - known;
  }

  /** What a commit handler makes of the commits on disk: nothing unless the load, git, the
      indexer and the write all succeed; then all listed commits are added to them. A
      write that cannot read the file leaves only those that were taken for new. */
  predicate CommitHandled(indexer: bool, answers: Answers, disk: set<Commit>, disk': set<Commit>) {
    if answers.loadRaises || answers.revList.None? || !indexer || answers.indexRaises || answers.mark.FailedBefore? then disk' == disk
    else if !answers.markUnread then disk' == disk + Listed(answers)
    else if answers.loadUnread then disk' == Listed(answers)
    else disk' == if Listed(answers) <= disk then disk else Listed(answers) - disk
  }

  /** What a catch-up makes of memory and disk: unless git or the indexer fails, memory
      gets all listed commits, and the disk those that memory did not have. */
  predicate CaughtUp(indexer: bool, answers: Answers, memory: set<Commit>, memory': set<Commit>, disk: set<Commit>, disk': set<Commit>) {
    var done := answers.revList.None? || (indexer && answers.indexRaises) || Listed(answers) <= memory;
    && memory' == (if done then memory else memory + Listed(answers))
    && disk' == if done || answers.mark.FailedBefore? then disk
                else (if answers.markUnread then {} else disk) + (Listed(answers) - memory)
  }

  class ProgressiveMetadata {
    var completed: set<Commit>

    constructor (completed: set<Commit>)
      ensures this.completed == completed
    {
      this.completed := completed;
    }

    /** A file that cannot be read or parsed is taken for an empty one. */
    method LoadCompleted(unread: bool) returns (commits: set<Commit>)
      ensures commits == if unread then {} else completed
    {
      if unread { return {}; }
      return completed;
    }

    /** Reads, adds and writes back; what could not be read is overwritten. */
    method MarkCompleted(commits: set<Commit>, mark: Mark, unread: bool) returns (raised: bool)
      modifies this
      ensures mark.FailedBefore? ==> completed == old(completed)
      ensures !mark.FailedBefore? ==> completed == (if unread then {} else old(completed)) + commits
      ensures raised == !mark.Written?
    {
      if mark.FailedBefore? { return true; }
      var data := LoadCompleted(unread);
      completed := data + commits;
      return !mark.Written?;
    }
  }

  class TemporalWatchHandler {
    var lastCommitHash: string
    var currentBranch: string
    var completedCommits: set<Commit>
    const metadata: ProgressiveMetadata
    const indexer: bool

    /** The shared state with thread `t` at `pc` and the other one idle. */
    function Now(t: Thread, pc: Pc): State
      reads this, metadata
    {
      With(State(lastCommitHash, currentBranch, completedCommits, metadata.completed, Idle, Idle), t, pc)
    }

    constructor (branch: string, hash: string, metadata: ProgressiveMetadata, indexer: bool, unread: bool)
      ensures this.metadata == metadata && this.indexer == indexer
      ensures currentBranch == branch && lastCommitHash == hash
      ensures completedCommits == if unread then {} else metadata.completed
      ensures Initial(Now(Observer, Idle))
    {
      currentBranch := branch;
      lastCommitHash := hash;
      this.metadata := metadata;
      this.indexer := indexer;
      var loaded := metadata.LoadCompleted(unread);
      completedCommits := loaded;
    }

    method HandleCommitDetected(t: Thread, answers: Answers) returns (es: seq<Event>)
      modifies metadata
      ensures Run(indexer, old(Now(t, Load)), es) == Some(Now(t, Idle))
      ensures Follows(es, t, indexer, answers) && es != [] && es[0] == Do(t, LoadAction(answers))
      ensures CommitHandled(indexer, answers, old(metadata.completed), metadata.completed)
    {
      hide Run, Listing;
      ghost var s0 := Now(t, Load);
      assert Run(indexer, s0, []) == Some(s0) by { RunNothing(indexer, s0); }
      if answers.loadRaises {
        Extend(indexer, s0, [], s0, Do(t, LoadFails), Now(t, Idle));
        assert [] + [Do(t, LoadFails)] == [Do(t, LoadFails)];
        return [Do(t, LoadFails)];
      }
      var done := metadata.LoadCompleted(answers.loadUnread);
      es := [] + [Do(t, LoadAction(answers))];
      ghost var s1 := Now(t, List(done));
      Extend(indexer, s0, [], s0, Do(t, LoadAction(answers)), s1);
      if answers.revList.None? {
        Extend(indexer, s0, es, s1, Do(t, GitFails), Now(t, Idle));
        return es + [Do(t, GitFails)];
      }
      var e := Do(t, RevList(answers.revList.value));
      var allCommits := Listing(answers.revList.value);
      var newCommits := New(allCommits, done);
      NewOfListed(answers, done);
      if newCommits == {} {
        Extend(indexer, s0, es, s1, e, Now(t, Idle));
        return es + [e];
      }
      var w := Work(allCommits, newCommits);
      Extend(indexer, s0, es, s1, e, Now(t, IndexNew(w)));
      var rest := IndexAndMark(t, w, answers);
      RunConcat(indexer, s0, es + [e], rest);
      es := es + [e] + rest;
    }

    /** The rest of the commit handler. Without an indexer the call raises. */
    method IndexAndMark(t: Thread, w: Work, answers: Answers) returns (es: seq<Event>)
      modifies metadata
      ensures Run(indexer, old(Now(t, IndexNew(w))), es) == Some(Now(t, Idle))
      ensures Follows(es, t, indexer, answers)
      ensures metadata.completed ==
                if !indexer || answers.indexRaises || answers.mark.FailedBefore? then old(metadata.completed)
                else (if answers.markUnread then {} else old(metadata.completed)) + w.fresh_
    {
      hide Run;
      ghost var s0 := Now(t, IndexNew(w));
      assert Run(indexer, s0, []) == Some(s0) by { RunNothing(indexer, s0); }
      if !indexer || answers.indexRaises {
        Extend(indexer, s0, [], s0, Do(t, IndexFails), Now(t, Idle));
        return [] + [Do(t, IndexFails)];
      }
      es := [] + [Do(t, IndexOk)];
      ghost var s1 := Now(t, MarkNew(w));
      Extend(indexer, s0, [], s0, Do(t, IndexOk), s1);
      var _ := metadata.MarkCompleted(w.fresh_, answers.mark, answers.markUnread);
      Extend(indexer, s0, es, s1, Do(t, Marked(answers.mark, answers.markUnread)), Now(t, Idle));
      es := es + [Do(t, Marked(answers.mark, answers.markUnread))];
    }

    /** One round of the polling loop, and the refs-directory branch of the event handler. */
    method CheckForCommit(t: Thread, currentHash: string, answers: Answers) returns (es: seq<Event>)
      modifies this, metadata
      ensures Run(indexer, old(Now(t, Idle)), es) == Some(Now(t, Idle))
      ensures |es| > 0 && es[0] == Do(t, GotHash(currentHash)) && Follows(es[1..], t, indexer, answers)
      ensures if currentHash == old(lastCommitHash) then |es| == 2 else |es| > 3 && es[3] == Do(t, LoadAction(answers))
      ensures lastCommitHash == currentHash && currentBranch == old(currentBranch)
      ensures completedCommits == old(completedCommits)
      ensures if currentHash == old(lastCommitHash) then metadata.completed == old(metadata.completed)
              else CommitHandled(indexer, answers, old(metadata.completed), metadata.completed)
    {
      hide Run;
      ghost var s0 := Now(t, Idle);
      assert Run(indexer, s0, []) == Some(s0) by { RunNothing(indexer, s0); }
      es := [] + [Do(t, GotHash(currentHash))];
      Extend(indexer, s0, [], s0, Do(t, GotHash(currentHash)), Now(t, Hashed(currentHash)));
      if currentHash != lastCommitHash {
        Extend(indexer, s0, es, Now(t, Hashed(currentHash)), Do(t, Go), Now(t, Detected(currentHash)));
        es := es + [Do(t, Go)];
        ghost var s1 := Now(t, Detected(currentHash));
        lastCommitHash := currentHash;
        Extend(indexer, s0, es, s1, Do(t, Go), Now(t, Load));
        es := es + [Do(t, Go)];
        var rest := HandleCommitDetected(t, answers);
        RunConcat(indexer, s0, es, rest);
        es := es + rest;
      } else {
        Extend(indexer, s0, es, Now(t, Hashed(currentHash)), Do(t, Go), s0);
        es := es + [Do(t, Go)];
      }
    }

    method HandleBranchSwitch(newBranch: string, answers: Answers) returns (es: seq<Event>)
      modifies this, metadata
      ensures Run(indexer, old(Now(Observer, Idle)), es) == Some(Now(Observer, Idle))
      ensures |es| > 0 && es[0] == Do(Observer, GotBranch(newBranch)) && Follows(es[1..], Observer, indexer, answers)
      ensures currentBranch == newBranch && lastCommitHash == old(lastCommitHash)
      ensures if newBranch == old(currentBranch)
              then |es| == 2 && completedCommits == old(completedCommits) && metadata.completed == old(metadata.completed)
              else CaughtUp(indexer, answers, old(completedCommits), completedCommits, old(metadata.completed), metadata.completed)
    {
      hide Run;
      ghost var s0 := Now(Observer, Idle);
      assert Run(indexer, s0, []) == Some(s0) by { RunNothing(indexer, s0); }
      es := [] + [Do(Observer, GotBranch(newBranch))];
      Extend(indexer, s0, [], s0, Do(Observer, GotBranch(newBranch)), Now(Observer, Branched(newBranch)));
      if newBranch == currentBranch {
        Extend(indexer, s0, es, Now(Observer, Branched(newBranch)), Do(Observer, Go), s0);
        return es + [Do(Observer, Go)];
      }
      Extend(indexer, s0, es, Now(Observer, Branched(newBranch)), Do(Observer, Go), Now(Observer, Switching(newBranch)));
      es := es + [Do(Observer, Go)];
      ghost var s1 := Now(Observer, Switching(newBranch));
      currentBranch := newBranch;
      Extend(indexer, s0, es, s1, Do(Observer, Go), Now(Observer, CatchList));
      es := es + [Do(Observer, Go)];
      var rest := CatchUpTemporalIndex(answers);
      RunConcat(indexer, s0, es, rest);
      es := es + rest;
    }

    /** A file event: only the refs directory and the HEAD file matter. */
    method OnModified(path: EventPath, currentHash: string, newBranch: string, answers: Answers) returns (es: seq<Event>)
      modifies this, metadata
      ensures Run(indexer, old(Now(Observer, Idle)), es) == Some(Now(Observer, Idle))
      ensures match path
        case RefsDirectory =>
          && es != [] && es[0] == Do(Observer, GotHash(currentHash)) && Follows(es[1..], Observer, indexer, answers)
          && lastCommitHash == currentHash && currentBranch == old(currentBranch)
          && completedCommits == old(completedCommits)
          && (if currentHash == old(lastCommitHash) then |es| == 2 && metadata.completed == old(metadata.completed)
              else |es| > 3 && es[3] == Do(Observer, LoadAction(answers))
                   && CommitHandled(indexer, answers, old(metadata.completed), metadata.completed))
        case HeadFile =>
          && es != [] && es[0] == Do(Observer, GotBranch(newBranch)) && Follows(es[1..], Observer, indexer, answers)
          && currentBranch == newBranch && lastCommitHash == old(lastCommitHash)
          && (if newBranch == old(currentBranch)
              then completedCommits == old(completedCommits) && metadata.completed == old(metadata.completed)
              else CaughtUp(indexer, answers, old(completedCommits), completedCommits, old(metadata.completed), metadata.completed))
        case Elsewhere =>
          es == [] && currentBranch == old(currentBranch) && lastCommitHash == old(lastCommitHash)
          && completedCommits == old(completedCommits) && metadata.completed == old(metadata.completed)
    {
      match path
      case RefsDirectory => es := CheckForCommit(Observer, currentHash, answers);
      case HeadFile => es := HandleBranchSwitch(newBranch, answers);
      case Elsewhere => es := [];
    }

    method CatchUpTemporalIndex(answers: Answers) returns (es: seq<Event>)
      modifies this`completedCommits, metadata
      ensures Run(indexer, old(Now(Observer, CatchList)), es) == Some(Now(Observer, Idle))
      ensures Follows(es, Observer, indexer, answers)
      ensures CaughtUp(indexer, answers, old(completedCommits), completedCommits, old(metadata.completed), metadata.completed)
    {
      hide Run, Listing;
      ghost var s0 := Now(Observer, CatchList);
      assert Run(indexer, s0, []) == Some(s0) by { RunNothing(indexer, s0); }
      if answers.revList.None? {
        Extend(indexer, s0, [], s0, Do(Observer, GitFails), Now(Observer, Idle));
        return [] + [Do(Observer, GitFails)];
      }
      var e := Do(Observer, RevList(answers.revList.value));
      var allCommits := Listing(answers.revList.value);
      var unindexed := New(allCommits, completedCommits);
      NewOfListed(answers, completedCommits);
      if unindexed == {} {
        Extend(indexer, s0, [], s0, e, Now(Observer, Idle));
        return [] + [e];
      }
      var w := Work(allCommits, unindexed);
      Extend(indexer, s0, [], s0, e, Now(Observer, CatchIndex(w)));
      var rest := IndexIncrementally(w, answers);
      RunConcat(indexer, s0, [] + [e], rest);
      es := [] + [e] + rest;
    }

    /** The rest of the catch-up. Without an indexer nothing is indexed, nothing raised. */
    method IndexIncrementally(w: Work, answers: Answers) returns (es: seq<Event>)
      modifies this`completedCommits, metadata
      ensures Run(indexer, old(Now(Observer, CatchIndex(w))), es) == Some(Now(Observer, Idle))
      ensures Follows(es, Observer, indexer, answers)
      ensures completedCommits == old(completedCommits) + if indexer && answers.indexRaises then {} else w.fresh_
      ensures metadata.completed ==
                if (indexer && answers.indexRaises) || answers.mark.FailedBefore? then old(metadata.completed)
                else (if answers.markUnread then {} else old(metadata.completed)) + w.fresh_
    {
      hide Run;
      ghost var s0 := Now(Observer, CatchIndex(w));
      assert Run(indexer, s0, []) == Some(s0) by { RunNothing(indexer, s0); }
      if indexer && answers.indexRaises {
        Extend(indexer, s0, [], s0, Do(Observer, IndexFails), Now(Observer, Idle));
        return [] + [Do(Observer, IndexFails)];
      }
      var e := Do(Observer, if indexer then IndexOk else Go);
      ghost var s1 := Now(Observer, CatchMemory(w));
      Extend(indexer, s0, [], s0, e, s1);
      es := [] + [e];
      completedCommits := completedCommits + w.fresh_;
      ghost var s2 := Now(Observer, CatchMark(w));
      Extend(indexer, s0, es, s1, Do(Observer, Go), s2);
      es := es + [Do(Observer, Go)];
      var _ := metadata.MarkCompleted(w.fresh_, answers.mark, answers.markUnread);
      Extend(indexer, s0, es, s2, Do(Observer, Marked(answers.mark, answers.markUnread)), Now(Observer, Idle));
      es := es + [Do(Observer, Marked(answers.mark, answers.markUnread))];
    }
  }
}
