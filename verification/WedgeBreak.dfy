/**
 The session room's wedge break. A cold start replays the stored log; a replay too long for the
 CPU limit is killed, and a kill rolls back every write since the last sync. The room counts such
 deaths durably and, after three in a row, drops the log so that the next start can succeed.
 */
module WedgeBreak {
  import opened Wrappers
  import opened Utf8

  const REPLAY_CRASH_LIMIT := 3

  datatype Content = Content(snapshot: Option<Bytes>, log: seq<Bytes>, postReset: bool)

  datatype Store = Store(attempts: nat, content: Content)

  /** `durable` is what survives a kill; `live` is storage as the running event sees it. */
  datatype State = State(durable: Store, live: Store, pending: seq<Bytes>, doc: Option<seq<Bytes>>)

  const EMPTY := Content(None, [], false)
  const DROPPED := Content(None, [], true)

  /** Where, if anywhere, a cold start is killed. */
  datatype Fate = KilledBeforeCount | KilledInReplay | KilledBeforeReset | Survived

  /** The updates a cold start imports. */
  function Replayed(c: Content, pending: seq<Bytes>): seq<Bytes> {
    (if c.snapshot.Some? && c.snapshot.value != [] then [c.snapshot.value] else []) + c.log + pending
  }

  function Killed(durable: Store): State {
    State(durable, durable, [], None)
  }

  predicate Breaks(s: State, limit: Option<nat>) {
    limit.Some? && s.live.attempts >= limit.value
  }

  /** One cold start. Without a limit there is no wedge break. */
  function ColdStart(s: State, fate: Fate, limit: Option<nat>): State {
    var content := if Breaks(s, limit) then DROPPED else s.live.content;
    var pending := if Breaks(s, limit) then [] else s.pending;
    match fate
    case KilledBeforeCount => Killed(s.durable)
    case KilledInReplay | KilledBeforeReset => Killed(Store(s.live.attempts + 1, content))
    case Survived => State(Store(0, content), Store(0, content), pending, Some(Replayed(content, pending)))
  }

  // ---------------------------------------------------------------------------
  // The room

  class Room {
    var durable: Store
    var live: Store
    var pending: seq<Bytes>
    var doc: Option<seq<Bytes>>

    ghost function Current(): State
      reads this
    {
      State(durable, live, pending, doc)
    }

    constructor ()
      ensures Current() == Killed(Store(0, EMPTY))
    {
      durable, live, pending, doc := Store(0, EMPTY), Store(0, EMPTY), [], None;
    }

    method Sync()
      modifies this`durable
      ensures durable == live
    {
      durable := live;
    }

    method Kill()
      modifies this
      ensures Current() == Killed(old(durable))
    {
      live, pending, doc := durable, [], None;
    }

    method DropLog()
      modifies this`live, this`pending
      ensures live == Store(old(live.attempts), DROPPED) && pending == []
    {
      live := live.(content := DROPPED);
      pending := [];
    }

    method EnsureDoc(fate: Fate)
      modifies this
      ensures Current() == if old(doc).Some? then old(Current()) else ColdStart(old(Current()), fate, Some(REPLAY_CRASH_LIMIT))
    {
      if doc.Some? { return; }
      var attempts := live.attempts;
      if attempts >= REPLAY_CRASH_LIMIT { DropLog(); }
      live := live.(attempts := attempts + 1);
      if fate.KilledBeforeCount? { Kill(); return; }
      Sync();
      if fate.KilledInReplay? { Kill(); return; }
      var imported := Replayed(live.content, pending);
      live := live.(attempts := 0);
      if fate.KilledBeforeReset? { Kill(); return; }
      Sync();
      doc := Some(imported);
    }
  }

  // ---------------------------------------------------------------------------
  // Runs

  datatype Step =
    | EnsureDoc(fate: Fate)
    | Write(content: Content, pending: seq<Bytes>)   // an event's own writes
    | Commit                                         // an event ends, or syncs
    | Kill                                           // a kill outside a cold start
    | Release                                        // an idle document is freed

  function Next(s: State, t: Step, limit: Option<nat>): State {
    match t
    case EnsureDoc(fate) => if s.doc.Some? then s else ColdStart(s, fate, limit)
    case Write(content, pending) => s.(live := s.live.(content := content), pending := pending)
    case Commit => s.(durable := s.live)
    case Kill => Killed(s.durable)
    case Release => s.(doc := None)
  }

  function End(s: State, ts: seq<Step>, limit: Option<nat>): State
    decreases |ts|
  {
    if ts == [] then s else End(Next(s, ts[0], limit), ts[1..], limit)
  }

  /** How the cold starts of a run ended. */
  function Trace(s: State, ts: seq<Step>, limit: Option<nat>): seq<Fate>
    decreases |ts|
  {
    if ts == [] then []
    else Ended(s, ts[0]) + Trace(Next(s, ts[0], limit), ts[1..], limit)
  }

  function Ended(s: State, t: Step): seq<Fate> {
    if t.EnsureDoc? && s.doc.None? then [t.fate] else []
  }

  /** Deaths between the two syncs since a cold start last survived. A start killed before it was
      counted leaves no mark. */
  function Deaths(fates: seq<Fate>): nat {
    if fates == [] then 0
    else
      var before := Deaths(fates[..|fates| - 1]);
      match fates[|fates| - 1]
      case KilledBeforeCount => before
      case KilledInReplay | KilledBeforeReset => before + 1
      case Survived => 0
  }

  lemma DeathsSnoc(fates: seq<Fate>, f: Fate)
    ensures Deaths(fates + [f]) == match f
                                   case KilledBeforeCount => Deaths(fates)
                                   case KilledInReplay | KilledBeforeReset => Deaths(fates) + 1
                                   case Survived => 0
  {
    assert (fates + [f])[..|fates|] == fates;
  }

  ghost predicate Counts(s: State, past: seq<Fate>) {
    s.live.attempts == s.durable.attempts == Deaths(past)
  }

  lemma StepCounts(s: State, t: Step, limit: Option<nat>, past: seq<Fate>)
    requires Counts(s, past)
    ensures Counts(Next(s, t, limit), past + Ended(s, t))
  {
    if t.EnsureDoc? && s.doc.None? {
      DeathsSnoc(past, t.fate);
    } else {
      assert past + [] == past;
    }
  }

  lemma {:induction false} RunCounts(s: State, ts: seq<Step>, limit: Option<nat>, past: seq<Fate>)
    requires Counts(s, past)
    ensures Counts(End(s, ts, limit), past + Trace(s, ts, limit))
    decreases |ts|
  {
    if ts == [] {
      assert past + [] == past;
    } else {
      var s' := Next(s, ts[0], limit);
      StepCounts(s, ts[0], limit, past);
      RunCounts(s', ts[1..], limit, past + Ended(s, ts[0]));
      assert past + Ended(s, ts[0]) + Trace(s', ts[1..], limit) == past + Trace(s, ts, limit);
    }
  }

  // ---------------------------------------------------------------------------
  // The main results

  const LIMIT := Some(REPLAY_CRASH_LIMIT)

  /** In every run the durable counter is the number of consecutive deaths inside replay, wherever
      the kills fell. */
  lemma CounterIsDeaths(ts: seq<Step>)
    ensures var s0 := Killed(Store(0, EMPTY));
            End(s0, ts, LIMIT).durable.attempts == Deaths(Trace(s0, ts, LIMIT))
  {
    var s0 := Killed(Store(0, EMPTY));
    assert Counts(s0, []);
    RunCounts(s0, ts, LIMIT, []);
    assert [] + Trace(s0, ts, LIMIT) == Trace(s0, ts, LIMIT);
  }

  /** After any run, the next cold start drops the log if and only if three or more deaths in a row
      preceded it; it then replays nothing, and leaves nothing to replay. */
  lemma BreaksExactlyAfterThree(ts: seq<Step>, fate: Fate)
    ensures var s0 := Killed(Store(0, EMPTY));
            var s := End(s0, ts, LIMIT);
            var s' := ColdStart(s, fate, LIMIT);
            && (Deaths(Trace(s0, ts, LIMIT)) >= REPLAY_CRASH_LIMIT ==>
                  && (fate.Survived? ==> s'.doc == Some([]))
                  && (!fate.KilledBeforeCount? ==> s'.durable.content == Content(None, [], true))
                  && (fate.KilledBeforeCount? ==> s'.durable == s.durable))
            && (Deaths(Trace(s0, ts, LIMIT)) < REPLAY_CRASH_LIMIT ==> s' == ColdStart(s, fate, None))
  {
    var s0 := Killed(Store(0, EMPTY));
    assert Counts(s0, []);
    RunCounts(s0, ts, LIMIT, []);
    assert [] + Trace(s0, ts, LIMIT) == Trace(s0, ts, LIMIT);
    DroppedReplaysNothing();
  }

  lemma DroppedReplaysNothing()
    ensures Replayed(DROPPED, []) == []
  {}

  predicate HasSnapshot(c: Content) {
    c.snapshot.Some? && c.snapshot.value != []
  }

  /** The document was made by importing the snapshot, if one is stored, then the log in order, then
      the pending updates in order, and nothing else. */
  ghost predicate MadeOf(d: seq<Bytes>, c: Content, pending: seq<Bytes>) {
    var k := if HasSnapshot(c) then 1 else 0;
    && |d| == k + |c.log| + |pending|
    && (HasSnapshot(c) ==> d[0] == c.snapshot.value)
    && (forall i :: 0 <= i < |c.log| ==> d[k + i] == c.log[i])
    && (forall i :: 0 <= i < |pending| ==> d[k + |c.log| + i] == pending[i])
  }

  /** After any run with fewer than three deaths in a row at its end, a start that survives brings up
      all that is stored and pending. */
  lemma SurvivorHoldsAll(ts: seq<Step>)
    ensures var s0 := Killed(Store(0, EMPTY));
            var s := End(s0, ts, LIMIT);
            Deaths(Trace(s0, ts, LIMIT)) < REPLAY_CRASH_LIMIT ==>
              var up := ColdStart(s, Survived, LIMIT);
              up.doc.Some? && MadeOf(up.doc.value, s.live.content, s.pending) && up.durable.content == s.live.content
  {
    BreaksExactlyAfterThree(ts, Survived);
    var s := End(Killed(Store(0, EMPTY)), ts, LIMIT);
    ReplayedIsMadeOf(s.live.content, s.pending);
  }

  lemma ReplayedIsMadeOf(c: Content, pending: seq<Bytes>)
    ensures MadeOf(Replayed(c, pending), c, pending)
  {}

  /** A start that is killed; `EnsureDoc` on a room that is down. */
  predicate Dies(t: Step) {
    t.EnsureDoc? && !t.fate.Survived?
  }

  /** Committed content outlives killed starts, as long as they are fewer than three. */
  lemma {:induction false} KilledStartsKeepContent(s: State, ts: seq<Step>)
    requires s.live == s.durable && s.doc.None? && s.live.attempts + |ts| <= REPLAY_CRASH_LIMIT
    requires forall t :: t in ts ==> Dies(t)
    ensures var e := End(s, ts, LIMIT);
            && e.live == e.durable && e.doc.None? && e.live.content == s.live.content
            && e.live.attempts <= s.live.attempts + |ts| && (ts != [] ==> e.pending == [])
    decreases |ts|
  {
    if ts != [] {
      assert ts[0] in ts;
      KilledStartsKeepContent(Next(s, ts[0], LIMIT), ts[1..]);
    }
  }

  /** What a room wrote and committed comes up whole after one or two killed starts: the stored
      snapshot, then the log; only what was pending in memory is gone. */
  lemma CommittedSurvivesKills(c: Content, deaths: seq<Step>)
    requires 0 < |deaths| < REPLAY_CRASH_LIMIT && forall t :: t in deaths ==> Dies(t)
    ensures var e := End(Killed(Store(0, c)), deaths, LIMIT);
            var up := Next(e, EnsureDoc(Survived), LIMIT);
            up.doc.Some? && MadeOf(up.doc.value, c, []) && up.durable == Store(0, c)
  {
    KilledStartsKeepContent(Killed(Store(0, c)), deaths);
    ReplayedIsMadeOf(c, []);
  }

  /** No prefix of the run has three deaths in a row. */
  ghost predicate Healthy(past: seq<Fate>, fates: seq<Fate>) {
    forall k :: 0 <= k <= |fates| ==> Deaths(past + fates[..k]) < REPLAY_CRASH_LIMIT
  }

  /** Until three deaths in a row the wedge break is invisible: the room behaves as one that never
      drops anything. */
  lemma {:induction false} InvisibleWhileHealthy(s: State, ts: seq<Step>, past: seq<Fate>)
    requires Counts(s, past) && Healthy(past, Trace(s, ts, None))
    ensures End(s, ts, LIMIT) == End(s, ts, None) && Trace(s, ts, LIMIT) == Trace(s, ts, None)
    decreases |ts|
  {
    if ts != [] {
      var t := ts[0];
      var s' := Next(s, t, None);
      var now, rest := Ended(s, t), Trace(s', ts[1..], None);
      assert Deaths(past) < REPLAY_CRASH_LIMIT by {
        assert past + Trace(s, ts, None)[..0] == past;
      }
      assert Next(s, t, LIMIT) == s';
      StepCounts(s, t, None, past);
      forall k | 0 <= k <= |rest| ensures Deaths(past + now + rest[..k]) < REPLAY_CRASH_LIMIT {
        assert past + now + rest[..k] == past + (now + rest)[..|now| + k];
      }
      InvisibleWhileHealthy(s', ts[1..], past + now);
    }
  }

  /** A kill once the document is up costs nothing but the unsaved writes: it never counts. */
  lemma LateKillsDoNotCount(s: State, ts: seq<Step>)
    requires forall t :: t in ts ==> !t.EnsureDoc?
    ensures Trace(s, ts, LIMIT) == []
    ensures s.live.attempts == s.durable.attempts ==> End(s, ts, LIMIT).durable.attempts == s.durable.attempts
    decreases |ts|
  {
    if ts != [] { LateKillsDoNotCount(Next(s, ts[0], LIMIT), ts[1..]); }
  }

  /** A room that always dies in replay heals itself: three deaths, then a start with nothing to replay. */
  lemma WedgeHeals(content: Content)
    ensures var s := Killed(Store(0, content));
            var die := EnsureDoc(KilledInReplay);
            && End(s, [die, die, die], LIMIT).durable == Store(3, content)
            && End(s, [die, die, die, EnsureDoc(Survived)], LIMIT) ==
                 State(Store(0, Content(None, [], true)), Store(0, Content(None, [], true)), [], Some([]))
  {
    var s := Killed(Store(0, content));
    var die, live := EnsureDoc(KilledInReplay), EnsureDoc(Survived);
    var s1, s2, s3 := Killed(Store(1, content)), Killed(Store(2, content)), Killed(Store(3, content));
    assert Next(s, die, LIMIT) == s1 && Next(s1, die, LIMIT) == s2 && Next(s2, die, LIMIT) == s3;
    DroppedReplaysNothing();
    assert [die, die, die] == [die] + [die, die] && [die, die] == [die] + [die] && [die] == [die] + [];
    EndCons(s, die, [die, die]);
    EndCons(s1, die, [die]);
    EndCons(s2, die, []);
    assert [die, die, die, live] == [die] + [die, die, live] && [die, die, live] == [die] + [die, live];
    assert [die, live] == [die] + [live] && [live] == [live] + [];
    EndCons(s, die, [die, die, live]);
    EndCons(s1, die, [die, live]);
    EndCons(s2, die, [live]);
    EndCons(s3, live, []);
  }

  lemma EndCons(s: State, t: Step, ts: seq<Step>)
    ensures End(s, [t] + ts, LIMIT) == End(Next(s, t, LIMIT), ts, LIMIT)
  {
    assert ([t] + ts)[1..] == ts;
  }
}
