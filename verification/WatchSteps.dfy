/** `cli_temporal_watch_handler.py`: a polling thread and the file-event thread share
    the last commit hash, the current branch, the in-memory set of completed commits
    and the persisted set. The handlers are cut into the steps between which the other
    thread can run; git, the indexer and the disk answer as they like. */
module WatchSteps {
  import opened Text

  type Commit = string

  datatype Thread = Poller | Observer

  /** How adding to the persisted set ends: written, failed before the write, or
      raising after it. */
  datatype Mark = Written | FailedBefore | FailedAfter

  /** The commits a handler listed and those of them it took for new. */
  datatype Work = Work(listed: seq<Commit>, fresh_: set<Commit>)

  /** Where a thread stands: idle; a hash was read, found new; the commit handler about
      to load, list, index, mark; a branch was read, found new; the catch-up about to
      list, index, update memory, mark. */
  datatype Pc =
    | Idle
    | Hashed(hash: string) | Detected(hash: string)
    | Load | List(done: set<Commit>) | IndexNew(work: Work) | MarkNew(work: Work)
    | Branched(branch: string) | Switching(branch: string)
    | CatchList | CatchIndex(work: Work) | CatchMemory(work: Work) | CatchMark(work: Work)

  datatype State = State(
    lastHash: string, branch: string, memory: set<Commit>, persisted: set<Commit>, poller: Pc, observer: Pc)

  /** What a thread does, with the environment's answer. `Go` is a step whose outcome
      the shared state decides. A progress file that cannot be read or parsed is taken
      for an empty one: a load then sees nothing (`LoadEmpty`), and a mark starts from
      nothing (`unread`). */
  datatype Action =
    | GotHash(hash: string) | GotBranch(branch: string) | Go | LoadFails | LoadEmpty
    | GitFails | RevList(out: string) | IndexOk | IndexFails | Marked(mark: Mark, unread: bool)

  /** A step of a thread, or another program changing the persisted set. */
  datatype Event = Do(thread: Thread, action: Action) | External(added: set<Commit>, removed: set<Commit>)

  function Place(s: State, t: Thread): Pc {
    if t.Poller? then s.poller else s.observer
  }

  function With(s: State, t: Thread, pc: Pc): State {
    if t.Poller? then s.(poller := pc) else s.(observer := pc)
  }

  /** The lines of git's output; an empty output is one empty line. */
  function Listing(out: string): seq<Commit> {
    Split(Strip(out))
  }

  function New(listed: seq<Commit>, done: set<Commit>): set<Commit> {
    set c | c in listed && c !in done
  }

  /** `mark_completed`: reads the set, adds to it and writes it back. */
  function Saved(s: State, fresh_: set<Commit>, m: Mark, unread: bool): State {
    if m.FailedBefore? then s else s.(persisted := (if unread then {} else s.persisted) + fresh_)
  }

  /** An empty output is one empty commit. */
  lemma EmptyListing()
    ensures Listing("") == [""]
  {
  }

  /** A commit as git prints it: one line, with no white space at its ends. */
  predicate IsHash(c: Commit) {
    c != "" && OneLine(c) && !IsSpace(c[0]) && !IsSpace(c[|c| - 1])
  }

  lemma {:induction false} JoinEnds(lines: seq<string>)
    requires lines != [] && forall k | 0 <= k < |lines| :: lines[k] != ""
    ensures Join(lines) != "" && Join(lines)[0] == lines[0][0]
    ensures var last := lines[|lines| - 1]; Join(lines)[|Join(lines)| - 1] == last[|last| - 1]
  {
    if |lines| > 1 { JoinEnds(lines[1..]); }
  }

  /** What git printed, one commit per line and white space around, is what is listed. */
  lemma ListingReadsBack(commits: seq<Commit>, lead: string, tail: string)
    requires commits != [] && forall k | 0 <= k < |commits| :: IsHash(commits[k])
    requires Blank(lead) && Blank(tail)
    ensures Listing(lead + Join(commits) + tail) == commits
  {
    hide Join, IsSpace, Strip, Split, Blank, IsHash, OneLine;
    HashesAreLines(commits);
    JoinEnds(commits);
    StripOuter(lead, Join(commits), tail);
    SplitJoin(commits);
  }

  lemma HashesAreLines(commits: seq<Commit>)
    requires commits != [] && forall k | 0 <= k < |commits| :: IsHash(commits[k])
    ensures OneLineEach(commits) && forall k | 0 <= k < |commits| :: commits[k] != ""
    ensures var last := commits[|commits| - 1]; last != "" && !IsSpace(commits[0][0]) && !IsSpace(last[|last| - 1])
  {
    hide IsSpace, OneLine;
    assert IsHash(commits[0]) && IsHash(commits[|commits| - 1]);
  }

  // ----- the steps -----

  /** The steps of the commit handler and of the polling and refs-directory checks before it. */
  function CommitStep(indexer: bool, s: State, t: Thread, a: Action): Option<State> {
    match (Place(s, t), a)
    case (Idle, GotHash(h)) => Some(With(s, t, Hashed(h)))
    case (Hashed(h), Go) => Some(With(s, t, if h != s.lastHash then Detected(h) else Idle))
    case (Detected(h), Go) => Some(With(s.(lastHash := h), t, Load))
    case (Load, Go) => Some(With(s, t, List(s.persisted)))
    case (Load, LoadEmpty) => Some(With(s, t, List({})))
    case (Load, LoadFails) => Some(With(s, t, Idle))
    case (List(_), GitFails) => Some(With(s, t, Idle))
    case (List(done), RevList(out)) =>
      var fresh_ := New(Listing(out), done);
      Some(With(s, t, if fresh_ == {} then Idle else IndexNew(Work(Listing(out), fresh_))))
    case (IndexNew(w), IndexOk) => if indexer then Some(With(s, t, MarkNew(w))) else None
    case (IndexNew(w), IndexFails) => Some(With(s, t, Idle))
    case (MarkNew(w), Marked(m, unread)) => Some(With(Saved(s, w.fresh_, m, unread), t, Idle))
    case _ => None
  }

  /** The steps of the branch-switch handler and its catch-up, which only the
      file-event thread runs. */
  function SwitchStep(indexer: bool, s: State, a: Action): Option<State> {
    match (s.observer, a)
    case (Idle, GotBranch(b)) => Some(s.(observer := Branched(b)))
    case (Branched(b), Go) => Some(s.(observer := if b != s.branch then Switching(b) else Idle))
    case (Switching(b), Go) => Some(s.(branch := b, observer := CatchList))
    case (CatchList, GitFails) => Some(s.(observer := Idle))
    case (CatchList, RevList(out)) =>
      var fresh_ := New(Listing(out), s.memory);
      Some(s.(observer := if fresh_ == {} then Idle else CatchIndex(Work(Listing(out), fresh_))))
    case (CatchIndex(w), IndexOk) => if indexer then Some(s.(observer := CatchMemory(w))) else None
    case (CatchIndex(w), Go) => if indexer then None else Some(s.(observer := CatchMemory(w)))
    case (CatchIndex(w), IndexFails) => Some(s.(observer := Idle))
    case (CatchMemory(w), Go) => Some(s.(memory := s.memory + w.fresh_, observer := CatchMark(w)))
    case (CatchMark(w), Marked(m, unread)) => Some(Saved(s, w.fresh_, m, unread).(observer := Idle))
    case _ => None
  }

  predicate InSwitch(s: State, e: Event) {
    e.Do? && e.thread.Observer? &&
    (s.observer.Branched? || s.observer.Switching? || s.observer.CatchList? || s.observer.CatchIndex?
     || s.observer.CatchMemory? || s.observer.CatchMark? || e.action.GotBranch?)
  }

  function Step(indexer: bool, s: State, e: Event): Option<State> {
    if e.External? then Some(s.(persisted := s.persisted - e.removed + e.added))
    else if InSwitch(s, e) then SwitchStep(indexer, s, e.action)
    else CommitStep(indexer, s, e.thread, e.action)
  }

  function Run(indexer: bool, s: State, es: seq<Event>): Option<State>
    decreases |es|
  {
    if es == [] then Some(s)
    else
      var before := Run(indexer, s, es[..|es| - 1]);
      if before.None? then None else Step(indexer, before.value, es[|es| - 1])
  }

  lemma RunSnoc(indexer: bool, s: State, es: seq<Event>, e: Event)
    ensures Run(indexer, s, es + [e]) ==
            var before := Run(indexer, s, es); if before.None? then None else Step(indexer, before.value, e)
  {
    assert (es + [e])[..|es|] == es;
  }

  lemma {:induction false} RunConcat(indexer: bool, s: State, a: seq<Event>, b: seq<Event>)
    ensures Run(indexer, s, a + b) == var mid := Run(indexer, s, a); if mid.None? then None else Run(indexer, mid.value, b)
    decreases |b|
  {
    hide Step;
    if b == [] {
      assert a + b == a;
    } else {
      var front, e := b[..|b| - 1], b[|b| - 1];
      RunConcat(indexer, s, a, front);
      assert a + b == (a + front) + [e] && b == front + [e];
      RunSnoc(indexer, s, a + front, e);
    }
  }

  /** Both threads idle, as after construction. */
  predicate Quiescent(s: State) {
    s.poller.Idle? && s.observer.Idle?
  }

  lemma Extend(indexer: bool, s0: State, es: seq<Event>, s: State, e: Event, s': State)
    requires Run(indexer, s0, es) == Some(s) && Step(indexer, s, e) == Some(s')
    ensures Run(indexer, s0, es + [e]) == Some(s')
  {
    hide Step;
    RunSnoc(indexer, s0, es, e);
  }

  lemma RunNothing(indexer: bool, s: State)
    ensures Run(indexer, s, []) == Some(s)
  {
  }
}
