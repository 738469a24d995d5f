/**
  The threads of the input reader: the main thread starts and regrabs devices, and one thread per device
  may end at any time.  A step is what one thread does between two points where another may run.
 */
module PollThreads {
  import opened DeviceList

  datatype Phase = Polling | Unlinking | Unlinked

  datatype MainPhase = Idle | Checking(name: string) | Spawned(entry: nat) | Grabbing

  datatype Holder = Nobody | MainThread | Poller(entry: nat)

  /** Entries are addresses, free again once their thread is gone; `threads` has the live ones. */
  datatype State = State(
    queue: seq<nat>, names: map<nat, string>, threads: map<nat, Phase>,
    main: MainPhase, holder: Holder)

  datatype Action =
    | Check(name: string)  // the main thread takes the lock to look for a device
    | Refuse               // the device is polled already, or cannot be
    | Spawn(entry: nat)    // its entry is made and its thread started
    | Enqueue
    | Grab
    | Release
    | Lock(entry: nat)     // a thread that ends takes the lock
    | Unlink(entry: nat)
    | Free(entry: nat)

  const START := State([], map[], map[], Idle, Nobody)

  ghost predicate Enabled(s: State, a: Action) {
    match a
    case Check(name) => s.main == Idle && s.holder == Nobody
    case Refuse => s.main.Checking?
    case Spawn(e) =>
      && s.main.Checking? && e !in s.threads
      && forall q :: q in s.queue && q in s.names ==> s.names[q] != s.main.name
    case Enqueue => s.main.Spawned?
    case Grab => s.main == Idle && s.holder == Nobody
    case Release => s.main == Grabbing
    case Lock(e) => e in s.threads && s.threads[e] == Polling && s.holder == Nobody
    case Unlink(e) => e in s.threads && s.threads[e] == Unlinking
    case Free(e) => e in s.threads && s.threads[e] == Unlinked
  }

  ghost function Step(s: State, a: Action): State
    requires Enabled(s, a)
  {
    match a
    case Check(name) => s.(main := Checking(name), holder := MainThread)
    case Refuse => s.(main := Idle, holder := Nobody)
    case Spawn(e) => s.(names := s.names[e := s.main.name], threads := s.threads[e := Polling], main := Spawned(e))
    case Enqueue => s.(queue := [s.main.entry] + s.queue, main := Idle, holder := Nobody)
    case Grab => s.(main := Grabbing, holder := MainThread)
    case Release => s.(main := Idle, holder := Nobody)
    case Lock(e) => s.(threads := s.threads[e := Unlinking], holder := Poller(e))
    case Unlink(e) => s.(queue := Without(s.queue, e), threads := s.threads[e := Unlinked], holder := Nobody)
    case Free(e) => s.(names := s.names - {e}, threads := s.threads - {e})
  }

  ghost predicate Possible(s: State, run: seq<Action>)
    decreases |run|
  {
    run == [] || (Enabled(s, run[0]) && Possible(Step(s, run[0]), run[1..]))
  }

  ghost function End(s: State, run: seq<Action>): State
    requires Possible(s, run)
    decreases |run|
  {
    if run == [] then s else End(Step(s, run[0]), run[1..])
  }

  /** The entry belongs into the list: started, and not yet unlinked. */
  ghost predicate Listed(s: State, e: nat) {
    e in s.threads && s.threads[e] != Unlinked && s.main != Spawned(e)
  }

  ghost predicate Exclusive(s: State) {
    && (s.holder == MainThread <==> s.main != Idle)
    && forall e :: s.holder == Poller(e) <==> e in s.threads && s.threads[e] == Unlinking
  }

  ghost predicate NamedApart(s: State) {
    && s.names.Keys == s.threads.Keys
    && forall e, e' :: e in s.queue && e' in s.queue && e in s.names && e' in s.names && e != e' ==>
       s.names[e] != s.names[e']
  }

  ghost predicate Safe(s: State) {
    && Distinct(s.queue)
    && (forall e :: e in s.queue <==> Listed(s, e))
    && NamedApart(s)
    && Exclusive(s)
    && (s.main.Spawned? ==>
          && s.main.entry in s.threads && s.threads[s.main.entry] == Polling
          && forall e :: e in s.queue && e in s.names && s.main.entry in s.names ==>
             s.names[e] != s.names[s.main.entry])
  }

  /** No step of any thread breaks the list, the lock or the names. */
  lemma StepIsSafe(s: State, a: Action)
    requires Safe(s) && Enabled(s, a)
    ensures Safe(Step(s, a))
  {
    if a.Unlink? {
      UnlinkIsSafe(s, a.entry);
    } else if a.Spawn? {
      SpawnIsSafe(s, a.entry);
    }
  }

  lemma SpawnIsSafe(s: State, e: nat)
    requires Safe(s) && Enabled(s, Spawn(e))
    ensures Safe(Step(s, Spawn(e)))
  {
    hide Distinct;
  }

  lemma UnlinkIsSafe(s: State, e: nat)
    requires Safe(s) && Enabled(s, Unlink(e))
    ensures Safe(Step(s, Unlink(e)))
  {
    hide Without, Distinct;
    WithoutIs(s.queue, e);
  }

  /** A thread that holds the lock finds its own entry, takes out that one only, and leaves every other thread alone. */
  lemma UnlinkFindsItsEntry(s: State, e: nat)
    requires Safe(s) && Enabled(s, Unlink(e))
    ensures e in s.queue
    ensures var s' := Step(s, Unlink(e));
            && |s'.queue| == |s.queue| - 1
            && (forall d :: d in s'.queue <==> d in s.queue && d != e)
            && forall d :: d != e ==> (Listed(s', d) <==> Listed(s, d))
  {
    WithoutIs(s.queue, e);
  }

  /** Memory is given back only after its entry has left the list, so no walk can meet a freed entry. */
  lemma FreedIsNotListed(s: State, e: nat)
    requires Safe(s) && Enabled(s, Free(e))
    ensures e !in s.queue && Step(s, Free(e)).queue == s.queue
    ensures forall d :: d in s.queue ==> d in Step(s, Free(e)).threads
  {
  }

  function Times(run: seq<Action>, counted: Action -> bool): nat {
    if run == [] then 0 else (if counted(run[0]) then 1 else 0) + Times(run[1..], counted)
  }

  /** Over every run the list holds exactly the devices started and not yet unlinked, each once. */
  lemma {:induction false} RunIsSafe(s: State, run: seq<Action>)
    requires Safe(s) && Possible(s, run)
    ensures Safe(End(s, run))
    ensures |End(s, run).queue| + Times(run, (a: Action) => a.Unlink?) ==
            |s.queue| + Times(run, (a: Action) => a.Enqueue?)
    decreases |run|
  {
    if run != [] {
      StepIsSafe(s, run[0]);
      QueueGrows(s, run[0]);
      RunIsSafe(Step(s, run[0]), run[1..]);
    }
  }

  lemma QueueGrows(s: State, a: Action)
    requires Safe(s) && Enabled(s, a)
    ensures |Step(s, a).queue| ==
            |s.queue| + (if a.Enqueue? then 1 else 0) - (if a.Unlink? then 1 else 0)
  {
    if a.Unlink? {
      UnlinkFindsItsEntry(s, a.entry);
    }
  }

  lemma EveryRunIsSafe(run: seq<Action>)
    requires Possible(START, run)
    ensures var s := End(START, run);
            && Safe(s)
            && |s.queue| == Times(run, (a: Action) => a.Enqueue?) - Times(run, (a: Action) => a.Unlink?)
            && forall e :: e in s.queue ==> e in s.threads && s.threads[e] != Unlinked
  {
    RunIsSafe(START, run);
  }

  // ---------------------------------------------------------------- what a run does

  lemma {:induction false} OneMoreStep(s: State, run: seq<Action>, a: Action)
    requires Possible(s, run + [a])
    ensures Possible(s, run) && Enabled(End(s, run), a) && End(s, run + [a]) == Step(End(s, run), a)
    decreases |run|
  {
    if run == [] {
      assert (run + [a])[1..] == [];
    } else {
      assert (run + [a])[0] == run[0] && (run + [a])[1..] == run[1..] + [a];
      OneMoreStep(Step(s, run[0]), run[1..], a);
    }
  }

  /** The run makes the entry e for the device that it checked last before. */
  ghost predicate MadeFor(run: seq<Action>, e: nat, name: string, i: nat, j: nat) {
    && i < j < |run| && run[i] == Check(name) && run[j] == Spawn(e)
    && (forall k :: i < k < j ==> !run[k].Check?)
    && (forall k :: j < k < |run| ==> run[k] != Spawn(e))
  }

  ghost predicate CheckedLast(run: seq<Action>, name: string, i: nat) {
    i < |run| && run[i] == Check(name) && forall k :: i < k < |run| ==> !run[k].Check?
  }

  /** The entry that the run made last. */
  function LastMade(run: seq<Action>): nat {
    if run == [] then 0
    else if run[|run| - 1].Spawn? then run[|run| - 1].entry
    else LastMade(run[..|run| - 1])
  }

  /** The list that the actions of the run add up to. */
  function Listing(run: seq<Action>): seq<nat> {
    if run == [] then []
    else
      var before, a := run[..|run| - 1], run[|run| - 1];
      if a.Enqueue? then [LastMade(before)] + Listing(before)
      else if a.Unlink? then Without(Listing(before), a.entry)
      else Listing(before)
  }

  /**
    In every possible run each live entry is for the device that was checked before it was
    made, and the list is what the run has enqueued and not unlinked, the newest first.
   */
  lemma {:induction false} EntriesAreForTheirDevices(run: seq<Action>)
    requires Possible(START, run)
    ensures var s := End(START, run);
            && s.queue == Listing(run)
            && (s.main.Checking? ==> exists i :: CheckedLast(run, s.main.name, i))
            && (s.main.Spawned? ==> s.main.entry == LastMade(run))
            && (forall e :: e in s.names ==> exists i, j :: MadeFor(run, e, s.names[e], i, j))
            && (forall e :: e in s.queue ==> e in s.names)
    decreases |run|
  {
    if run != [] {
      var before, a := run[..|run| - 1], run[|run| - 1];
      assert before + [a] == run;
      OneMoreStep(START, before, a);
      EntriesAreForTheirDevices(before);
      RunIsSafe(START, before);
      RunIsSafe(START, run);
      var s, s' := End(START, before), End(START, run);
      forall e | e in s'.names
        ensures exists i, j :: MadeFor(run, e, s'.names[e], i, j)
      {
        StillMadeFor(before, a, s, e);
      }
      if s'.main.Checking? {
        StillChecked(before, a, s);
      }
    }
  }

  lemma StillChecked(before: seq<Action>, a: Action, s: State)
    requires Enabled(s, a) && Step(s, a).main.Checking?
    requires s.main.Checking? ==> exists i :: CheckedLast(before, s.main.name, i)
    requires s.holder == MainThread <==> s.main != Idle
    ensures exists i :: CheckedLast(before + [a], Step(s, a).main.name, i)
  {
    if a.Check? {
      assert CheckedLast(before + [a], a.name, |before|);
    } else {
      var i :| CheckedLast(before, s.main.name, i);
      assert CheckedLast(before + [a], s.main.name, i);
    }
  }

  lemma StillMadeFor(before: seq<Action>, a: Action, s: State, e: nat)
    requires Enabled(s, a) && e in Step(s, a).names
    requires s.main.Checking? ==> exists i :: CheckedLast(before, s.main.name, i)
    requires forall d :: d in s.names ==> exists i, j :: MadeFor(before, d, s.names[d], i, j)
    ensures exists i, j :: MadeFor(before + [a], e, Step(s, a).names[e], i, j)
  {
    if a == Spawn(e) {
      var i :| CheckedLast(before, s.main.name, i);
      assert MadeFor(before + [a], e, s.main.name, i, |before|);
    } else {
      var i, j :| MadeFor(before, e, s.names[e], i, j);
      assert MadeFor(before + [a], e, s.names[e], i, j);
    }
  }

  // ---------------------------------------------------------------- what is always possible

  lemma ThreeSteps(s: State, a: Action, b: Action, c: Action)
    requires Enabled(s, a) && Enabled(Step(s, a), b) && Enabled(Step(Step(s, a), b), c)
    ensures Possible(s, [a, b, c]) && End(s, [a, b, c]) == Step(Step(Step(s, a), b), c)
  {
    var s1 := Step(s, a);
    var s2 := Step(s1, b);
    assert [a, b, c][1..] == [b, c] && [b, c][1..] == [c] && [c][1..] == [];
    assert Possible(Step(s2, c), []);
    assert Possible(s2, [c]) && End(s2, [c]) == Step(s2, c);
    assert Possible(s1, [b, c]) && End(s1, [b, c]) == End(s2, [c]);
  }

  lemma TwoSteps(s: State, a: Action, b: Action)
    requires Enabled(s, a)
    ensures Possible(s, [a, b]) <==> Enabled(Step(s, a), b)
    ensures Enabled(Step(s, a), b) ==> End(s, [a, b]) == Step(Step(s, a), b)
  {
    var s1 := Step(s, a);
    assert [a, b][1..] == [b] && [b][1..] == [];
    if Enabled(s1, b) {
      assert Possible(Step(s1, b), []);
      assert Possible(s1, [b]) && End(s1, [b]) == Step(s1, b);
      assert End(s, [a, b]) == End(s1, [b]);
    }
  }

  /** Whenever the main thread is idle and the lock is free, a new device can be started, and is then in front. */
  lemma NewDeviceCanStart(s: State, name: string, e: nat)
    requires Safe(s) && s.main == Idle && s.holder == Nobody
    requires (forall q :: q in s.queue ==> q in s.names && s.names[q] != name) && e !in s.threads
    ensures var run := [Check(name), Spawn(e), Enqueue];
            && Possible(s, run)
            && End(s, run) ==
               s.(queue := [e] + s.queue, names := s.names[e := name], threads := s.threads[e := Polling])
  {
    ThreeSteps(s, Check(name), Spawn(e), Enqueue);
  }

  /** A device that is listed is refused, and nothing changes. */
  lemma ListedDeviceIsRefused(s: State, q: nat, e: nat)
    requires Safe(s) && s.main == Idle && s.holder == Nobody && q in s.queue
    ensures q in s.names
    ensures Possible(s, [Check(s.names[q]), Refuse]) && End(s, [Check(s.names[q]), Refuse]) == s
    ensures !Possible(s, [Check(s.names[q]), Spawn(e)])
  {
    assert q in s.threads;
    TwoSteps(s, Check(s.names[q]), Refuse);
    TwoSteps(s, Check(s.names[q]), Spawn(e));
  }

  /** Whenever the lock is free, any thread can end, and takes its own entry with it. */
  lemma ThreadCanEnd(s: State, e: nat)
    requires Safe(s) && s.holder == Nobody && e in s.threads && s.threads[e] == Polling
    ensures var run := [Lock(e), Unlink(e), Free(e)];
            && Possible(s, run)
            && End(s, run) ==
               s.(queue := Without(s.queue, e), names := s.names - {e}, threads := s.threads - {e})
            && forall d :: d in Without(s.queue, e) <==> d in s.queue && d != e
  {
    hide Without, Distinct;
    assert e in s.queue;
    WithoutIs(s.queue, e);
    ThreeSteps(s, Lock(e), Unlink(e), Free(e));
    assert End(s, [Lock(e), Unlink(e), Free(e)]).threads == s.threads - {e};
  }

  /** Whoever holds the lock can give it back by the next step. */
  lemma LockIsGivenBack(s: State) returns (a: Action)
    requires Safe(s) && s.holder != Nobody
    ensures Enabled(s, a) && Step(s, a).holder == Nobody
    ensures s.holder == MainThread ==> Step(s, a).main == Idle
  {
    match s.holder
    case Poller(e) => a := Unlink(e);
    case MainThread => a := if s.main.Checking? then Refuse else if s.main.Spawned? then Enqueue else Release;
  }
}
