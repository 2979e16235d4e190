/** Watch handler: no commit is lost, and exactly when one is. */
module WatchLoss {
  import opened Text
  import opened WatchSteps

  /** The listing of a handler that ends with this step and without an error. */
  function Finished(s: State, e: Event): Option<seq<Commit>> {
    if e.External? then None
    else match (Place(s, e.thread), e.action)
      case (List(done), RevList(out)) => if New(Listing(out), done) == {} then Some(Listing(out)) else None
      case (CatchList, RevList(out)) => if New(Listing(out), s.memory) == {} then Some(Listing(out)) else None
      case (MarkNew(w), Marked(Written, _)) => Some(w.listed)
      case (CatchMark(w), Marked(Written, _)) => Some(w.listed)
      case _ => None
  }

  /** The commits a catch-up has put into memory and now fails to persist. */
  function Dropped(s: State, e: Event): set<Commit> {
    if e.Do? && e.thread.Observer? && e.action.Marked? && e.action.mark.FailedBefore? && s.observer.CatchMark?
    then s.observer.work.fresh_ else {}
  }

  /** The commits of all catch-ups in the run whose write failed. */
  function Lost(indexer: bool, s: State, es: seq<Event>): set<Commit>
    requires Run(indexer, s, es).Some?
    decreases |es|
  {
    if es == [] then {}
    else
      var front := es[..|es| - 1];
      Lost(indexer, s, front) + Dropped(Run(indexer, s, front).value, es[|es| - 1])
  }

  /** The commits that some step of the run took off the disk: a write that could not
      read the file before, or another program. */
  function Erased(indexer: bool, s: State, es: seq<Event>): set<Commit>
    requires Run(indexer, s, es).Some?
    decreases |es|
  {
    if es == [] then {}
    else
      var front := es[..|es| - 1];
      Erased(indexer, s, front) + (Run(indexer, s, front).value.persisted - Run(indexer, s, es).value.persisted)
  }

  predicate Covered(listed: seq<Commit>, known: set<Commit>) {
    forall c :: c in listed ==> c in known
  }

  /** The commits memory is ahead of the disk by, while a catch-up is between the two. */
  function Pending(s: State): set<Commit> {
    if s.observer.CatchMark? then s.observer.work.fresh_ else {}
  }

  /** What a commit handler knows is on disk, or will be once it marks, up to what was
      erased (`gone`). */
  predicate HandlerSound(s: State, t: Thread, gone: set<Commit>) {
    match Place(s, t)
    case List(done) => done <= s.persisted + gone
    case IndexNew(w) => Covered(w.listed, s.persisted + gone + w.fresh_)
    case MarkNew(w) => Covered(w.listed, s.persisted + gone + w.fresh_)
    case _ => true
  }

  /** The same for a catch-up, where `gone` also holds what earlier catch-ups lost. */
  predicate CatchUpSound(s: State, gone: set<Commit>) {
    && s.memory <= s.persisted + gone + Pending(s)
    && match s.observer
       case CatchIndex(w) => Covered(w.listed, s.persisted + gone + w.fresh_)
       case CatchMemory(w) => Covered(w.listed, s.persisted + gone + w.fresh_)
       case CatchMark(w) => Covered(w.listed, s.persisted + gone + w.fresh_)
       case _ => true
  }

  predicate Inv(s: State, lost: set<Commit>, erased: set<Commit>) {
    HandlerSound(s, Poller, erased) && HandlerSound(s, Observer, erased) && CatchUpSound(s, lost + erased)
  }

  lemma CoveredNew(listed: seq<Commit>, done: set<Commit>, known: set<Commit>)
    requires done <= known
    ensures Covered(listed, known + New(listed, done))
    ensures New(listed, done) == {} ==> Covered(listed, known)
  {
    forall c | c in listed ensures c in done || c in New(listed, done) {}
  }

  lemma CoveredGrows(listed: seq<Commit>, known: set<Commit>, more: set<Commit>)
    requires known <= more
    ensures Covered(listed, known) ==> Covered(listed, more)
  {
  }

  /** A handler's knowledge survives every change of the disk that `gone` keeps track of. */
  lemma SoundGrows(s: State, s': State, t: Thread, gone: set<Commit>, gone': set<Commit>)
    requires s.persisted + gone <= s'.persisted + gone' && Place(s', t) == Place(s, t) && HandlerSound(s, t, gone)
    ensures HandlerSound(s', t, gone')
  {
    hide Covered;
    match Place(s, t)
    case IndexNew(w) => CoveredGrows(w.listed, s.persisted + gone + w.fresh_, s'.persisted + gone' + w.fresh_);
    case MarkNew(w) => CoveredGrows(w.listed, s.persisted + gone + w.fresh_, s'.persisted + gone' + w.fresh_);
    case _ =>
  }

  lemma CatchUpGrows(s: State, s': State, gone: set<Commit>, gone': set<Commit>)
    requires s.persisted + gone <= s'.persisted + gone' && s'.observer == s.observer && s'.memory == s.memory
    requires CatchUpSound(s, gone)
    ensures CatchUpSound(s', gone')
  {
    hide Covered;
    if s.observer.CatchIndex? || s.observer.CatchMemory? || s.observer.CatchMark? {
      var w := s.observer.work;
      CoveredGrows(w.listed, s.persisted + gone + w.fresh_, s'.persisted + gone' + w.fresh_);
    }
  }

  /** Outside a catch-up only memory and disk matter. */
  lemma NoCatchUp(s: State, s': State, gone: set<Commit>, gone': set<Commit>)
    requires s.persisted + gone <= s'.persisted + gone' && s'.memory == s.memory && CatchUpSound(s, gone)
    requires !s.observer.CatchMark? && !s'.observer.CatchIndex? && !s'.observer.CatchMemory? && !s'.observer.CatchMark?
    ensures CatchUpSound(s', gone')
  {
    hide Covered;
  }

  /** What a step of the commit handler leaves alone. */
  lemma CommitStepFrame(indexer: bool, s: State, t: Thread, a: Action)
    requires CommitStep(indexer, s, t, a).Some?
    ensures var s' := CommitStep(indexer, s, t, a).value;
            && s'.memory == s.memory
            && !Place(s', t).CatchIndex? && !Place(s', t).CatchMemory? && !Place(s', t).CatchMark?
            && !Place(s, t).CatchIndex? && !Place(s, t).CatchMemory? && !Place(s, t).CatchMark?
            && (forall u: Thread :: u != t ==> Place(s', u) == Place(s, u))
  {
    hide Listing;
  }

  lemma CommitStepSound(indexer: bool, s: State, t: Thread, a: Action, gone: set<Commit>)
    requires HandlerSound(s, t, gone) && CommitStep(indexer, s, t, a).Some?
    ensures HandlerSound(CommitStep(indexer, s, t, a).value, t, gone)
  {
    hide Listing, Covered;
    if Place(s, t).List? && a.RevList? { CoveredNew(Listing(a.out), Place(s, t).done, s.persisted + gone); }
  }

  lemma InvCommit(indexer: bool, s: State, t: Thread, a: Action, lost: set<Commit>, erased: set<Commit>, erased': set<Commit>)
    requires Inv(s, lost, erased) && CommitStep(indexer, s, t, a).Some?
    requires var s' := CommitStep(indexer, s, t, a).value; erased' == erased + (s.persisted - s'.persisted)
    ensures Inv(CommitStep(indexer, s, t, a).value, lost, erased')
  {
    hide HandlerSound, CatchUpSound, CommitStep;
    var s' := CommitStep(indexer, s, t, a).value;
    var u := if t.Poller? then Observer else Poller;
    CommitStepFrame(indexer, s, t, a);
    CommitStepSound(indexer, s, t, a, erased);
    SoundGrows(s', s', t, erased, erased');
    SoundGrows(s, s', u, erased, erased');
    if t.Poller? { CatchUpGrows(s, s', lost + erased, lost + erased'); } else { NoCatchUp(s, s', lost + erased, lost + erased'); }
  }

  lemma SwitchStepFrame(indexer: bool, s: State, a: Action)
    requires SwitchStep(indexer, s, a).Some?
    ensures var s' := SwitchStep(indexer, s, a).value;
            && s'.poller == s.poller
            && !s'.observer.List? && !s'.observer.IndexNew? && !s'.observer.MarkNew?
  {
    hide Listing;
  }

  lemma SwitchStepSound(indexer: bool, s: State, a: Action, gone: set<Commit>, gone': set<Commit>)
    requires CatchUpSound(s, gone) && SwitchStep(indexer, s, a).Some?
    requires var s' := SwitchStep(indexer, s, a).value; gone' == gone + Dropped(s, Do(Observer, a)) + (s.persisted - s'.persisted)
    ensures CatchUpSound(SwitchStep(indexer, s, a).value, gone')
  {
    hide Listing, Covered;
    var s' := SwitchStep(indexer, s, a).value;
    if s.observer.CatchList? && a.RevList? { CoveredNew(Listing(a.out), s.memory, s.persisted + gone); }
    if s'.observer.CatchIndex? || s'.observer.CatchMemory? || s'.observer.CatchMark? {
      var w := s'.observer.work;
      CoveredGrows(w.listed, s.persisted + gone + w.fresh_, s'.persisted + gone' + w.fresh_);
    }
  }

  lemma InvSwitch(indexer: bool, s: State, a: Action, lost: set<Commit>, erased: set<Commit>, erased': set<Commit>)
    requires Inv(s, lost, erased) && SwitchStep(indexer, s, a).Some?
    requires var s' := SwitchStep(indexer, s, a).value; erased' == erased + (s.persisted - s'.persisted)
    ensures Inv(SwitchStep(indexer, s, a).value, lost + Dropped(s, Do(Observer, a)), erased')
  {
    hide SwitchStep, Dropped, CatchUpSound;
    var s' := SwitchStep(indexer, s, a).value;
    var lost' := lost + Dropped(s, Do(Observer, a));
    SwitchStepFrame(indexer, s, a);
    SwitchStepSound(indexer, s, a, lost + erased, lost' + erased');
    SoundGrows(s, s', Poller, erased, erased');
  }

  lemma InvStep(indexer: bool, s: State, e: Event, lost: set<Commit>, erased: set<Commit>)
    requires Inv(s, lost, erased) && Step(indexer, s, e).Some?
    ensures var s' := Step(indexer, s, e).value;
            Inv(s', lost + Dropped(s, e), erased + (s.persisted - s'.persisted))
  {
    hide CommitStep, SwitchStep, HandlerSound, CatchUpSound;
    var s' := Step(indexer, s, e).value;
    var erased' := erased + (s.persisted - s'.persisted);
    if e.Do? && InSwitch(s, e) {
      hide Inv;
      InvSwitch(indexer, s, e.action, lost, erased, erased');
    } else {
      assert lost + Dropped(s, e) == lost;
      if e.Do? {
        InvCommit(indexer, s, e.thread, e.action, lost, erased, erased');
      } else {
        SoundGrows(s, s', Poller, erased, erased');
        SoundGrows(s, s', Observer, erased, erased');
        CatchUpGrows(s, s', lost + erased, lost + erased');
      }
    }
  }

  /** Construction: nothing runs yet and memory was loaded from disk. */
  predicate Initial(s: State) {
    Quiescent(s) && s.memory <= s.persisted
  }

  /** Over every run: memory is on disk, or about to be, or was lost or erased; and so is
      what a handler listed and did not take for new. */
  lemma {:induction false} RunInv(indexer: bool, s: State, es: seq<Event>)
    requires Initial(s) && Run(indexer, s, es).Some?
    ensures Inv(Run(indexer, s, es).value, Lost(indexer, s, es), Erased(indexer, s, es))
    decreases |es|
  {
    hide Step, Dropped;
    if es != [] {
      hide Inv;
      var front := es[..|es| - 1];
      RunInv(indexer, s, front);
      InvStep(indexer, Run(indexer, s, front).value, es[|es| - 1], Lost(indexer, s, front), Erased(indexer, s, front));
    }
  }

  /** Is this the end of a catch-up rather than of a commit handler? */
  predicate EndsCatchUp(s: State, e: Event) {
    e.Do? && e.thread.Observer? && (s.observer.CatchList? || s.observer.CatchMark?)
  }

  /** What the step is about to add to the disk. */
  function Adding(s: State, e: Event): set<Commit> {
    if !e.Do? then {}
    else match Place(s, e.thread)
      case MarkNew(w) => w.fresh_
      case CatchMark(w) => w.fresh_
      case _ => {}
  }

  /** The step writes the progress file without having been able to read it. */
  predicate WritesUnread(e: Event) {
    e.Do? && e.action.Marked? && e.action.unread
  }

  lemma EndOfHandler(indexer: bool, s: State, e: Event, lost: set<Commit>, erased: set<Commit>)
    requires Inv(s, lost, erased) && Step(indexer, s, e).Some? && Finished(s, e).Some?
    ensures Step(indexer, s, e).value.persisted == (if WritesUnread(e) then {} else s.persisted) + Adding(s, e)
    ensures Covered(Finished(s, e).value, s.persisted + (if EndsCatchUp(s, e) then lost + erased else erased) + Adding(s, e))
  {
    hide Listing, Covered;
    var pc := Place(s, e.thread);
    if pc.List? { CoveredNew(Finished(s, e).value, pc.done, s.persisted + erased); }
    if pc.CatchList? { CoveredNew(Finished(s, e).value, s.memory, s.persisted + (lost + erased)); }
    CoveredGrows(Finished(s, e).value, s.persisted + erased, s.persisted + erased + {});
    CoveredGrows(Finished(s, e).value, s.persisted + (lost + erased), s.persisted + (lost + erased) + {});
  }

  /** No commit is lost, and exactly when one is. Over every run, when a handler ends
      without an error, all it listed is persisted exactly when: its own write could read
      the file, and every listed commit that a step of the run had erased (for a
      catch-up, also one that an earlier catch-up failed to write) is on disk or about
      to be written; or its write could not read the file and it took every listed
      commit for new. */
  lemma NoCommitLostIff(indexer: bool, s: State, es: seq<Event>, e: Event)
    requires Initial(s) && Run(indexer, s, es).Some?
    requires var mid := Run(indexer, s, es).value; Step(indexer, mid, e).Some? && Finished(mid, e).Some?
    ensures
      var mid := Run(indexer, s, es).value;
      var listed := Finished(mid, e).value;
      var gone := if EndsCatchUp(mid, e) then Lost(indexer, s, es) + Erased(indexer, s, es) else Erased(indexer, s, es);
      Covered(listed, Step(indexer, mid, e).value.persisted) <==>
        if WritesUnread(e) then Covered(listed, Adding(mid, e))
        else forall c :: c in listed && c in gone ==> c in mid.persisted + Adding(mid, e)
  {
    hide Step, Finished, Inv, EndsCatchUp, Adding, WritesUnread;
    var mid, lost, erased := Run(indexer, s, es).value, Lost(indexer, s, es), Erased(indexer, s, es);
    RunInv(indexer, s, es);
    EndOfHandler(indexer, mid, e, lost, erased);
  }

  /** The step neither erases nor drops: files are read before they are written, other
      programs only add, and no write of the file-event thread fails beforehand. */
  predicate Benign(e: Event) {
    match e
    case External(_, removed) => removed == {}
    case Do(t, a) => a.Marked? ==> !a.unread && !(t.Observer? && a.mark.FailedBefore?)
  }

  /** In runs of such steps nothing is ever lost. */
  lemma NoCommitLost(indexer: bool, s: State, es: seq<Event>, e: Event)
    requires Initial(s) && Run(indexer, s, es).Some?
    requires var mid := Run(indexer, s, es).value; Step(indexer, mid, e).Some? && Finished(mid, e).Some?
    requires Benign(e) && forall k | 0 <= k < |es| :: Benign(es[k])
    ensures var mid := Run(indexer, s, es).value; Covered(Finished(mid, e).value, Step(indexer, mid, e).value.persisted)
  {
    hide Step, Finished, Covered, EndsCatchUp, Adding;
    NoCommitLostIff(indexer, s, es, e);
    NothingGone(indexer, s, es);
  }

  lemma BenignStep(indexer: bool, s: State, e: Event)
    requires Benign(e) && Step(indexer, s, e).Some?
    ensures s.persisted <= Step(indexer, s, e).value.persisted && Dropped(s, e) == {}
  {
    hide Listing;
  }

  lemma {:induction false} NothingGone(indexer: bool, s: State, es: seq<Event>)
    requires Run(indexer, s, es).Some? && forall k | 0 <= k < |es| :: Benign(es[k])
    ensures Lost(indexer, s, es) == {} && Erased(indexer, s, es) == {}
    decreases |es|
  {
    hide Step, Benign, Dropped;
    if es != [] {
      var front := es[..|es| - 1];
      NothingGone(indexer, s, front);
      BenignStep(indexer, Run(indexer, s, front).value, es[|es| - 1]);
    }
  }

  // ----- the conditions are needed -----

  const SWITCHED := [Do(Observer, Go), Do(Observer, Go)]

  lemma SwitchTo(indexer: bool, s: State, b: string)
    requires Quiescent(s) && b != s.branch
    ensures Run(indexer, s, [Do(Observer, GotBranch(b))] + SWITCHED) == Some(s.(branch := b, observer := CatchList))
  {
    hide Run;
    var e := Do(Observer, GotBranch(b));
    RunNothing(indexer, s);
    Extend(indexer, s, [], s, e, s.(observer := Branched(b)));
    Extend(indexer, s, [] + [e], s.(observer := Branched(b)), Do(Observer, Go), s.(observer := Switching(b)));
    Extend(indexer, s, [] + [e] + [Do(Observer, Go)], s.(observer := Switching(b)), Do(Observer, Go), s.(branch := b, observer := CatchList));
    assert [e] + SWITCHED == [] + [e] + [Do(Observer, Go)] + [Do(Observer, Go)];
  }

  /** The rest of a catch-up, with or without an indexer. */
  function CatchUp(indexer: bool, out: string, m: Mark): seq<Event> {
    [Do(Observer, RevList(out)), Do(Observer, if indexer then IndexOk else Go), Do(Observer, Go), Do(Observer, Marked(m, false))]
  }

  lemma CatchUpRun(indexer: bool, s: State, out: string, m: Mark)
    requires s.observer.CatchList? && New(Listing(out), s.memory) != {}
    ensures var fresh_ := New(Listing(out), s.memory);
            Run(indexer, s, CatchUp(indexer, out, m)) == Some(Saved(s, fresh_, m, false).(memory := s.memory + fresh_, observer := Idle))
  {
    hide Run, Listing;
    var w := Work(Listing(out), New(Listing(out), s.memory));
    var es := CatchUp(indexer, out, m);
    var s1, s2 := s.(observer := CatchIndex(w)), s.(observer := CatchMemory(w));
    var s3 := s.(memory := s.memory + w.fresh_, observer := CatchMark(w));
    RunNothing(indexer, s);
    Extend(indexer, s, [], s, es[0], s1);
    Extend(indexer, s, [] + [es[0]], s1, es[1], s2);
    Extend(indexer, s, [] + [es[0]] + [es[1]], s2, es[2], s3);
    Extend(indexer, s, [] + [es[0]] + [es[1]] + [es[2]], s3, es[3], Saved(s, w.fresh_, m, false).(memory := s.memory + w.fresh_, observer := Idle));
    assert es == [] + [es[0]] + [es[1]] + [es[2]] + [es[3]];
  }

  /** Two branch switches: the write of the first catch-up fails. */
  function LosingRun(a: string, b: string, out: string): seq<Event> {
    [Do(Observer, GotBranch(a))] + SWITCHED + CatchUp(true, out, FailedBefore) + ([Do(Observer, GotBranch(b))] + SWITCHED)
  }

  /** After a failed write the next catch-up that lists the same commits reports success
      and leaves each of them off the disk. */
  lemma FailedWriteIsNotRetried(s: State, a: string, b: string, out: string)
    requires Initial(s) && a != s.branch && b != a
    requires New(Listing(out), s.memory) != {}
    ensures
      var end := Run(true, s, LosingRun(a, b, out));
      && end.Some? && Finished(end.value, Do(Observer, RevList(out))) == Some(Listing(out))
      && Step(true, end.value, Do(Observer, RevList(out))).Some?
      && Step(true, end.value, Do(Observer, RevList(out))).value.persisted == s.persisted
  {
    hide Run, Listing, CatchUp;
    var first, second := [Do(Observer, GotBranch(a))] + SWITCHED, [Do(Observer, GotBranch(b))] + SWITCHED;
    var s1 := s.(branch := a, observer := CatchList);
    var s2 := s.(branch := a, memory := s.memory + New(Listing(out), s.memory));
    SwitchTo(true, s, a);
    CatchUpRun(true, s1, out, FailedBefore);
    RunConcat(true, s, first, CatchUp(true, out, FailedBefore));
    SwitchTo(true, s2, b);
    RunConcat(true, s, first + CatchUp(true, out, FailedBefore), second);
    assert New(Listing(out), s2.memory) == {};
  }

  /** A concrete such run: the only commit of the repository is lost. */
  lemma CatchUpCanLose()
    ensures
      var s := State("1", "main", {}, {}, Idle, Idle);
      var end := Run(true, s, LosingRun("dev", "main", "1"));
      var again := Do(Observer, RevList("1"));
      && end.Some? && Finished(end.value, again) == Some(["1"])
      && Step(true, end.value, again).Some? && "1" !in Step(true, end.value, again).value.persisted
  {
    hide Run, LosingRun;
    var s := State("1", "main", {}, {}, Idle, Idle);
    OneCommit();
    assert "1" in New(Listing("1"), s.memory);
    FailedWriteIsNotRetried(s, "dev", "main", "1");
  }

  lemma OneCommit()
    ensures Listing("1") == ["1"]
  {
    SplitOneLine("1");
  }

  /** A commit handler up to its write. */
  function UpToMark(t: Thread, hash: string, out: string): seq<Event> {
    [Do(t, GotHash(hash)), Do(t, Go), Do(t, Go), Do(t, Go), Do(t, RevList(out)), Do(t, IndexOk)]
  }

  lemma UpToMarkRun(s: State, t: Thread, hash: string, out: string)
    requires Quiescent(s) && hash != s.lastHash && New(Listing(out), s.persisted) != {}
    ensures Run(true, s, UpToMark(t, hash, out))
         == Some(With(s.(lastHash := hash), t, MarkNew(Work(Listing(out), New(Listing(out), s.persisted)))))
  {
    hide Run, Listing;
    var es := UpToMark(t, hash, out);
    var w := Work(Listing(out), New(Listing(out), s.persisted));
    var n := s.(lastHash := hash);
    RunNothing(true, s);
    Extend(true, s, [], s, es[0], With(s, t, Hashed(hash)));
    Extend(true, s, [] + [es[0]], With(s, t, Hashed(hash)), es[1], With(s, t, Detected(hash)));
    Extend(true, s, [] + [es[0]] + [es[1]], With(s, t, Detected(hash)), es[2], With(n, t, Load));
    UpToList(s, t, hash, w, out);
    var a := [] + [es[0]] + [es[1]] + [es[2]];
    RunConcat(true, s, a, [es[3], es[4], es[5]]);
    assert es == a + [es[3], es[4], es[5]];
  }

  lemma UpToList(s: State, t: Thread, hash: string, w: Work, out: string)
    requires Quiescent(s) && w == Work(Listing(out), New(Listing(out), s.persisted)) && w.fresh_ != {}
    ensures var n := s.(lastHash := hash);
            Run(true, With(n, t, Load), [Do(t, Go), Do(t, RevList(out)), Do(t, IndexOk)]) == Some(With(n, t, MarkNew(w)))
  {
    hide Run, Listing, New;
    var n := s.(lastHash := hash);
    var s0 := With(n, t, Load);
    RunNothing(true, s0);
    Extend(true, s0, [], s0, Do(t, Go), With(n, t, List(s.persisted)));
    Extend(true, s0, [] + [Do(t, Go)], With(n, t, List(s.persisted)), Do(t, RevList(out)), With(n, t, IndexNew(w)));
    Extend(true, s0, [] + [Do(t, Go)] + [Do(t, RevList(out))], With(n, t, IndexNew(w)), Do(t, IndexOk), With(n, t, MarkNew(w)));
    assert [Do(t, Go), Do(t, RevList(out)), Do(t, IndexOk)] == [] + [Do(t, Go)] + [Do(t, RevList(out))] + [Do(t, IndexOk)];
  }

  /** A write that cannot read the file ends the commit handler without an error and
      leaves only its own new commits on disk: everything completed before is gone. */
  lemma UnreadWriteErases(s: State, t: Thread, hash: string, out: string)
    requires Initial(s) && hash != s.lastHash && New(Listing(out), s.persisted) != {}
    ensures
      var mid := Run(true, s, UpToMark(t, hash, out));
      var e := Do(t, Marked(Written, true));
      && mid.Some? && Finished(mid.value, e) == Some(Listing(out))
      && Step(true, mid.value, e).Some? && Step(true, mid.value, e).value.persisted == New(Listing(out), s.persisted)
  {
    hide Run, Listing, UpToMark;
    UpToMarkRun(s, t, hash, out);
  }

  /** A concrete such run: of the two commits listed, the one completed before is gone. */
  lemma CommitHandlerCanErase()
    ensures
      var s := State("1", "main", {"1"}, {"1"}, Idle, Idle);
      var mid := Run(true, s, UpToMark(Poller, "2", "2\n1"));
      var e := Do(Poller, Marked(Written, true));
      && mid.Some? && Finished(mid.value, e) == Some(["2", "1"])
      && Step(true, mid.value, e).Some? && "1" !in Step(true, mid.value, e).value.persisted
  {
    hide Run, UpToMark;
    var s := State("1", "main", {"1"}, {"1"}, Idle, Idle);
    TwoCommits();
    assert "2" in New(Listing("2\n1"), s.persisted);
    UnreadWriteErases(s, Poller, "2", "2\n1");
  }

  lemma TwoCommits()
    ensures Listing("2\n1") == ["2", "1"]
  {
    SplitJoin(["2", "1"]);
    assert Join(["2", "1"]) == "2\n1";
    assert Strip("2\n1") == "2\n1";
  }

  /** A handler built without an indexer marks what was never indexed. */
  lemma MarksUnindexed(s: State, b: string, out: string)
    requires Initial(s) && b != s.branch && New(Listing(out), s.memory) != {}
    ensures
      var es := [Do(Observer, GotBranch(b))] + SWITCHED + CatchUp(false, out, Written);
      && Run(false, s, es).Some? && (forall t: Thread :: Do(t, IndexOk) !in es)
      && New(Listing(out), s.memory) <= Run(false, s, es).value.persisted
  {
    hide Run, Listing;
    SwitchTo(false, s, b);
    CatchUpRun(false, s.(branch := b, observer := CatchList), out, Written);
    RunConcat(false, s, [Do(Observer, GotBranch(b))] + SWITCHED, CatchUp(false, out, Written));
  }
}
