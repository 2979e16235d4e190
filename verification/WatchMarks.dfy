/** Watch handler: a commit is marked only after it was listed and then indexed. */
module WatchMarks {
  import opened WatchSteps

  predicate StartsHandler(e: Event, t: Thread) {
    e.Do? && e.thread == t && (e.action.GotHash? || e.action.GotBranch?)
  }

  /** Thread `t` starts no handler at or after `i`. */
  predicate SameHandler(es: seq<Event>, t: Thread, i: nat) {
    forall k | i <= k < |es| :: !StartsHandler(es[k], t)
  }

  predicate ListsAt(es: seq<Event>, t: Thread, i: nat, listed: seq<Commit>) {
    i < |es| && es[i].Do? && es[i].thread == t && es[i].action.RevList? && Listing(es[i].action.out) == listed
  }

  predicate IndexesAt(es: seq<Event>, t: Thread, j: nat) {
    j < |es| && es[j] == Do(t, IndexOk)
  }

  ghost predicate HasListed(es: seq<Event>, t: Thread, w: Work) {
    exists i: nat :: ListsAt(es, t, i, w.listed) && SameHandler(es, t, i)
  }

  ghost predicate HasIndexed(es: seq<Event>, t: Thread, w: Work) {
    exists i: nat, j: nat :: ListsAt(es, t, i, w.listed) && IndexesAt(es, t, j) && i < j && SameHandler(es, t, i)
  }

  /** What the past of a run must hold for a thread to stand where it does. */
  ghost predicate Justified(es: seq<Event>, t: Thread, pc: Pc) {
    match pc
    case IndexNew(w) => HasListed(es, t, w) && IsNew(w)
    case CatchIndex(w) => HasListed(es, t, w) && IsNew(w)
    case MarkNew(w) => HasIndexed(es, t, w) && IsNew(w)
    case CatchMemory(w) => HasIndexed(es, t, w) && IsNew(w)
    case CatchMark(w) => HasIndexed(es, t, w) && IsNew(w)
    case _ => true
  }

  predicate IsNew(w: Work) {
    forall c :: c in w.fresh_ ==> c in w.listed
  }

  lemma ListedKept(es: seq<Event>, e: Event, t: Thread, w: Work)
    requires HasListed(es, t, w) && !StartsHandler(e, t)
    ensures HasListed(es + [e], t, w)
    ensures e == Do(t, IndexOk) ==> HasIndexed(es + [e], t, w)
  {
    hide StartsHandler, Listing;
    var i: nat :| ListsAt(es, t, i, w.listed) && SameHandler(es, t, i);
    assert ListsAt(es + [e], t, i, w.listed) && SameHandler(es + [e], t, i);
    if e == Do(t, IndexOk) { assert IndexesAt(es + [e], t, |es|); }
  }

  lemma IndexedKept(es: seq<Event>, e: Event, t: Thread, w: Work)
    requires HasIndexed(es, t, w) && !StartsHandler(e, t)
    ensures HasIndexed(es + [e], t, w)
  {
    hide StartsHandler, Listing;
    var i: nat, j: nat :| ListsAt(es, t, i, w.listed) && IndexesAt(es, t, j) && i < j && SameHandler(es, t, i);
    assert ListsAt(es + [e], t, i, w.listed) && IndexesAt(es + [e], t, j) && SameHandler(es + [e], t, i);
  }

  lemma ListedNow(es: seq<Event>, t: Thread, out: string, w: Work)
    requires w.listed == Listing(out)
    ensures HasListed(es + [Do(t, RevList(out))], t, w)
  {
    hide Listing;
    var es' := es + [Do(t, RevList(out))];
    assert ListsAt(es', t, |es|, w.listed) && SameHandler(es', t, |es|);
  }

  /** A step of another thread, or of none, keeps what a thread has behind it. */
  lemma OtherStep(es: seq<Event>, e: Event, t: Thread, pc: Pc)
    requires Justified(es, t, pc) && !StartsHandler(e, t)
    ensures Justified(es + [e], t, pc)
  {
    hide HasListed, HasIndexed, StartsHandler, IsNew;
    match pc
    case IndexNew(w) => ListedKept(es, e, t, w);
    case CatchIndex(w) => ListedKept(es, e, t, w);
    case MarkNew(w) => IndexedKept(es, e, t, w);
    case CatchMemory(w) => IndexedKept(es, e, t, w);
    case CatchMark(w) => IndexedKept(es, e, t, w);
    case _ =>
  }

  lemma OwnCommitStep(es: seq<Event>, s: State, t: Thread, a: Action)
    requires Justified(es, t, Place(s, t)) && CommitStep(true, s, t, a).Some?
    ensures Justified(es + [Do(t, a)], t, Place(CommitStep(true, s, t, a).value, t))
  {
    hide HasListed, HasIndexed, Listing;
    match (Place(s, t), a)
    case (List(done), RevList(out)) => ListedNow(es, t, out, Work(Listing(out), New(Listing(out), done)));
    case (IndexNew(w), IndexOk) => ListedKept(es, Do(t, a), t, w);
    case _ =>
  }

  lemma OwnSwitchStep(es: seq<Event>, s: State, a: Action)
    requires Justified(es, Observer, s.observer) && SwitchStep(true, s, a).Some?
    ensures Justified(es + [Do(Observer, a)], Observer, SwitchStep(true, s, a).value.observer)
  {
    hide HasListed, HasIndexed, Listing;
    var e := Do(Observer, a);
    match (s.observer, a)
    case (CatchList, RevList(out)) => ListedNow(es, Observer, out, Work(Listing(out), New(Listing(out), s.memory)));
    case (CatchIndex(w), IndexOk) => ListedKept(es, e, Observer, w);
    case (CatchMemory(w), Go) => IndexedKept(es, e, Observer, w);
    case _ =>
  }

  /** A step touches only its own thread's place. */
  lemma OthersStay(indexer: bool, s: State, e: Event)
    requires Step(indexer, s, e).Some?
    ensures forall t: Thread :: !(e.Do? && e.thread == t) ==> Place(Step(indexer, s, e).value, t) == Place(s, t)
  {
    hide Listing;
  }

  lemma ObserverAt(s: State, a: Action)
    requires SwitchStep(true, s, a).Some?
    ensures Place(s, Observer) == s.observer
    ensures Place(SwitchStep(true, s, a).value, Observer) == SwitchStep(true, s, a).value.observer
  {
    hide SwitchStep;
  }

  lemma IdleJustified(s: State, t: Thread)
    requires Quiescent(s)
    ensures Justified([], t, Place(s, t))
  {
    assert Place(s, t).Idle?;
  }

  lemma {:induction false} RunJustified(s: State, es: seq<Event>, t: Thread)
    requires Quiescent(s) && Run(true, s, es).Some?
    ensures Justified(es, t, Place(Run(true, s, es).value, t))
    decreases |es|
  {
    hide CommitStep, SwitchStep, Justified, Place;
    if es == [] {
      IdleJustified(s, t);
    } else {
      var front, e := es[..|es| - 1], es[|es| - 1];
      var mid := Run(true, s, front).value;
      RunJustified(s, front, t);
      assert front + [e] == es;
      if !e.Do? || e.thread != t {
        OthersStay(true, mid, e);
        OtherStep(front, e, t, Place(mid, t));
      } else if InSwitch(mid, e) {
        ObserverAt(mid, e.action);
        OwnSwitchStep(front, mid, e.action);
      } else {
        OwnCommitStep(front, mid, t, e.action);
      }
    }
  }

  /** Event `n` writes a commit that its own handler listed before it indexed. */
  ghost predicate EarnedAt(es: seq<Event>, n: nat, c: Commit) {
    n < |es| && es[n].Do? && es[n].action.Marked? && !es[n].action.mark.FailedBefore?
    && exists i: nat, j: nat, listed: seq<Commit> ::
        ListsAt(es[..n], es[n].thread, i, listed) && IndexesAt(es[..n], es[n].thread, j)
        && i < j && c in listed && SameHandler(es[..n], es[n].thread, i)
  }

  predicate AddedAt(es: seq<Event>, n: nat, c: Commit) {
    n < |es| && es[n].External? && c in es[n].added
  }

  lemma PersistedBy(s: State, e: Event, c: Commit)
    requires Step(true, s, e).Some? && c !in s.persisted && c in Step(true, s, e).value.persisted
    ensures e.External? ==> c in e.added
    ensures e.Do? ==>
              && e.action.Marked? && !e.action.mark.FailedBefore?
              && var pc := Place(s, e.thread); (pc.MarkNew? || pc.CatchMark?) && c in pc.work.fresh_
  {
    hide Listing;
  }

  lemma NewlyEarned(s: State, es: seq<Event>, c: Commit)
    requires es != [] && Quiescent(s) && Run(true, s, es).Some?
    requires c in Run(true, s, es).value.persisted
    ensures var n := |es| - 1;
            c in Run(true, s, es[..n]).value.persisted || AddedAt(es, n, c) || EarnedAt(es, n, c)
  {
    hide Step;
    var n := |es| - 1;
    var front, e := es[..n], es[n];
    var mid := Run(true, s, front).value;
    if c !in mid.persisted {
      PersistedBy(mid, e, c);
      if e.Do? {
        var w := Place(mid, e.thread).work;
        RunJustified(s, front, e.thread);
        assert HasIndexed(front, e.thread, w) && c in w.listed;
        assert EarnedAt(es, n, c);
      }
    }
  }

  /** In every interleaving of both threads with failures of git, of the indexer and of the
      disk, at every step: a commit that enters the persisted set, for the first time or
      again, is put there by another program, or by a handler that had listed it and, after
      that, indexed without an error. */
  lemma EachEntryIsEarned(s: State, es: seq<Event>, n: nat, c: Commit)
    requires Quiescent(s) && n < |es| && Run(true, s, es[..n + 1]).Some?
    requires c in Run(true, s, es[..n + 1]).value.persisted
    ensures Run(true, s, es[..n]).Some?
    ensures c in Run(true, s, es[..n]).value.persisted || AddedAt(es, n, c) || EarnedAt(es, n, c)
  {
    hide Step;
    var upTo := es[..n + 1];
    assert upTo[..n] == es[..n] && upTo[n] == es[n];
    NewlyEarned(s, upTo, c);
  }

  /** Hence a commit that is persisted at the end and was not at the start was put there
      in one of these ways. */
  lemma {:induction false} MarkedOnlyAfterIndexing(s: State, es: seq<Event>, c: Commit)
    requires Quiescent(s) && Run(true, s, es).Some?
    requires c in Run(true, s, es).value.persisted && c !in s.persisted
    ensures exists n: nat :: AddedAt(es, n, c) || EarnedAt(es, n, c)
    decreases |es|
  {
    hide Step, EarnedAt, AddedAt;
    if es != [] {
      NewlyEarned(s, es, c);
      var front := es[..|es| - 1];
      if c in Run(true, s, front).value.persisted {
        MarkedOnlyAfterIndexing(s, front, c);
        var n: nat :| AddedAt(front, n, c) || EarnedAt(front, n, c);
        EarlierCounts(es, n, c);
      }
    }
  }

  lemma EarlierCounts(es: seq<Event>, n: nat, c: Commit)
    requires es != []
    requires var front := es[..|es| - 1]; AddedAt(front, n, c) || EarnedAt(front, n, c)
    ensures AddedAt(es, n, c) || EarnedAt(es, n, c)
  {
    hide SameHandler, ListsAt, IndexesAt;
    assert n < |es| - 1 ==> es[..|es| - 1][..n] == es[..n];
  }
}
