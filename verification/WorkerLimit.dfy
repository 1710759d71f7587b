// Named limits on concurrent parser work (docreader/parser/concurrency.py), as interleaved steps of calls.
module WorkerLimit {
  import opened Wrappers

  // A bounded semaphore: the count it began with and the count now.
  datatype Semaphore = Semaphore(size: int, free: int)

  // Where a call of parser_worker_limit is. Under the lock it looks for a limiter, makes one and registers it.
  datatype Phase =
    | Called(name: string, max: int)
    | Locked(name: string, max: int)
    | Missing(name: string, max: int)
    | Made(name: string, id: nat)
    | Registered(name: string, id: nat)
    | Waiting(name: string, id: nat)
    | Holding(name: string, id: nat)
    | Unlimited
    | Finished(raised: bool)

  // The calls, the holder of the registry lock, the registry, the semaphores made so far, the size given by the
  // first call that entered the lock for each name, and whether a release ever exceeded a bound.
  datatype State = State(
    calls: map<nat, Phase>,
    lock: Option<nat>,
    limiters: map<string, nat>,
    semaphores: seq<Semaphore>,
    first: map<string, int>,
    overflowed: bool)

  const INITIAL := State(map[], None, map[], [], map[], false)

  datatype Action =
    | Start(call: nat, name: string, max: int)
    | TakeLock(call: nat)
    | LookUp(call: nat)
    | Make(call: nat)
    | Register(call: nat)
    | DropLock(call: nat)
    | Acquire(call: nat)
    | Leave(call: nat, raised: bool)

  predicate Enabled(s: State, a: Action) {
    if a.Start? then a.call !in s.calls
    else
      a.call in s.calls &&
      match (a, s.calls[a.call]) {
        case (TakeLock(_), Called(_, _)) => s.lock.None?
        case (LookUp(_), Locked(_, _)) => true
        case (Make(_), Missing(_, _)) => true
        case (Register(_), Made(_, _)) => true
        case (DropLock(_), Registered(_, _)) => true
        case (Acquire(_), Waiting(_, id)) => id < |s.semaphores| && s.semaphores[id].free > 0
        case (Leave(_, _), Holding(_, id)) => id < |s.semaphores|
        case (Leave(_, _), Unlimited) => true
        case _ => false
      }
  }

  function Move(s: State, call: nat, p: Phase): State {
    s.(calls := s.calls[call := p])
  }

  function SetFree(s: State, id: nat, free: int): State
    requires id < |s.semaphores|
  {
    s.(semaphores := s.semaphores[id := s.semaphores[id].(free := free)])
  }

  // The effect of a step. Leaving the body of a throttled call releases its slot, whether the body raised or not.
  function Apply(s: State, a: Action): State
    requires Enabled(s, a)
  {
    match a
    case Start(call, name, max) => Move(s, call, if max <= 0 then Unlimited else Called(name, max))
    case TakeLock(call) =>
      var p := s.calls[call];
      Move(s, call, Locked(p.name, p.max))
        .(lock := Some(call), first := if p.name in s.first then s.first else s.first[p.name := p.max])
    case LookUp(call) =>
      var p := s.calls[call];
      Move(s, call, if p.name in s.limiters then Registered(p.name, s.limiters[p.name]) else Missing(p.name, p.max))
    case Make(call) =>
      var p := s.calls[call];
      Move(s, call, Made(p.name, |s.semaphores|)).(semaphores := s.semaphores + [Semaphore(p.max, p.max)])
    case Register(call) =>
      var p := s.calls[call];
      Move(s, call, Registered(p.name, p.id)).(limiters := s.limiters[p.name := p.id])
    case DropLock(call) =>
      var p := s.calls[call];
      Move(s, call, Waiting(p.name, p.id)).(lock := None)
    case Acquire(call) =>
      var p := s.calls[call];
      SetFree(Move(s, call, Holding(p.name, p.id)), p.id, s.semaphores[p.id].free - 1)
    case Leave(call, raised) =>
      var p := s.calls[call];
      if p.Unlimited? then Move(s, call, Finished(raised))
      else if s.semaphores[p.id].free >= s.semaphores[p.id].size then
        Move(s, call, Finished(true)).(overflowed := true)
      else SetFree(Move(s, call, Finished(raised)), p.id, s.semaphores[p.id].free + 1)
  }

  // ---------- The invariant ----------

  function Holders(calls: map<nat, Phase>, id: nat): set<nat> {
    set c | c in calls && calls[c].Holding? && calls[c].id == id
  }

  predicate UnderLock(p: Phase) {
    p.Locked? || p.Missing? || p.Made? || p.Registered?
  }

  // What is known of a call by its phase.
  predicate CallOk(s: State, c: nat)
    requires c in s.calls
  {
    var p := s.calls[c];
    && (UnderLock(p) ==> s.lock == Some(c) && p.name in s.first)
    && (p.Called? || p.Locked? || p.Missing? ==> p.max > 0)
    && (p.Locked? && p.name !in s.limiters ==> s.first[p.name] == p.max)
    && (p.Missing? ==> p.name !in s.limiters && s.first[p.name] == p.max)
    && (p.Made? ==>
          p.name !in s.limiters && p.id < |s.semaphores| && s.semaphores[p.id].size == s.first[p.name] &&
          p.id !in s.limiters.Values)
    && (p.Registered? || p.Waiting? || p.Holding? ==> p.name in s.limiters && s.limiters[p.name] == p.id)
  }

  predicate LimiterOk(s: State, name: string)
    requires name in s.limiters
  {
    && name in s.first && s.limiters[name] < |s.semaphores|
    && s.semaphores[s.limiters[name]].size == s.first[name]
    && forall other :: other in s.limiters && s.limiters[other] == s.limiters[name] ==> other == name
  }

  // Free slots and holders add up to the size.
  predicate Conserved(s: State, id: nat)
    requires id < |s.semaphores|
  {
    s.semaphores[id].free + |Holders(s.calls, id)| == s.semaphores[id].size && s.semaphores[id].size > 0 &&
    s.semaphores[id].free >= 0
  }

  // Whoever first entered the lock for a name has registered its limiter, or is about to.
  predicate NameOk(s: State, name: string) {
    name in s.first && name !in s.limiters ==>
      s.lock.Some? && s.lock.value in s.calls &&
      var p := s.calls[s.lock.value]; UnderLock(p) && p.name == name
  }

  predicate Inv(s: State) {
    && (forall c :: c in s.calls ==> CallOk(s, c))
    && (forall name :: name in s.limiters ==> LimiterOk(s, name))
    && (forall id :: 0 <= id < |s.semaphores| ==> Conserved(s, id))
    && (forall name :: name in s.first ==> NameOk(s, name))
    && !s.overflowed
  }

  // A step changes the phase of its own call only.
  lemma StepMoves(s: State, a: Action)
    requires Enabled(s, a)
    ensures var after := Apply(s, a);
      a.call in after.calls && after.calls == s.calls[a.call := after.calls[a.call]]
  {
  }

  lemma OtherCallOk(s: State, a: Action, c: nat)
    requires Enabled(s, a) && (a.call in s.calls ==> CallOk(s, a.call))
    requires c in s.calls && c != a.call && CallOk(s, c)
    ensures c in Apply(s, a).calls && CallOk(Apply(s, a), c)
  {
  }

  lemma OwnCallOk(s: State, a: Action)
    requires Inv(s) && Enabled(s, a)
    ensures a.call in Apply(s, a).calls && CallOk(Apply(s, a), a.call)
  {
    assert a.call in s.calls ==> CallOk(s, a.call);
  }

  lemma InvCalls(s: State, a: Action)
    requires Inv(s) && Enabled(s, a)
    ensures var t := Apply(s, a); forall c :: c in t.calls ==> CallOk(t, c)
  {
    var t := Apply(s, a);
    hide Enabled, Apply, CallOk;
    StepMoves(s, a);
    assert a.call in s.calls ==> CallOk(s, a.call);
    forall c | c in t.calls ensures CallOk(t, c) {
      if c != a.call {
        assert CallOk(s, c);
        OtherCallOk(s, a, c);
      } else {
        OwnCallOk(s, a);
      }
    }
  }

  lemma InvLimiters(s: State, a: Action)
    requires Inv(s) && Enabled(s, a)
    ensures var t := Apply(s, a); forall name :: name in t.limiters ==> LimiterOk(t, name)
  {
    var t := Apply(s, a);
    assert a.call in s.calls ==> CallOk(s, a.call);
    forall name | name in t.limiters ensures LimiterOk(t, name) {
      if name in s.limiters {
        assert LimiterOk(s, name);
      }
      if a.Register? {
        var id := s.calls[a.call].id;
        forall other | other in s.limiters ensures s.limiters[other] != id {
          assert s.limiters[other] in s.limiters.Values;
        }
      }
    }
  }

  // A step of a call that neither takes nor frees the slot changes no set of holders.
  lemma HoldersKept(calls: map<nat, Phase>, call: nat, p: Phase, id: nat)
    requires (call in calls && calls[call].Holding? && calls[call].id == id) <==> (p.Holding? && p.id == id)
    ensures Holders(calls[call := p], id) == Holders(calls, id)
  {
  }

  lemma HoldersTaken(calls: map<nat, Phase>, call: nat, p: Phase, id: nat)
    requires call in calls && !calls[call].Holding? && p.Holding? && p.id == id
    ensures |Holders(calls[call := p], id)| == |Holders(calls, id)| + 1
  {
    assert Holders(calls[call := p], id) == Holders(calls, id) + {call};
  }

  lemma HoldersFreed(calls: map<nat, Phase>, call: nat, p: Phase, id: nat)
    requires call in calls && calls[call].Holding? && calls[call].id == id && !p.Holding?
    ensures |Holders(calls[call := p], id)| == |Holders(calls, id)| - 1
  {
    assert Holders(calls[call := p], id) == Holders(calls, id) - {call};
    assert call in Holders(calls, id);
  }

  // A fresh semaphore has no holders: the semaphores of holders are registered.
  lemma FreshUnheld(s: State)
    requires Inv(s)
    ensures Holders(s.calls, |s.semaphores|) == {}
  {
    forall c | c in s.calls && s.calls[c].Holding? ensures s.calls[c].id < |s.semaphores| {
      assert CallOk(s, c);
      assert LimiterOk(s, s.calls[c].name);
    }
  }

  lemma InvSlots(s: State, a: Action)
    requires Inv(s) && Enabled(s, a)
    ensures var t := Apply(s, a);
      (forall id :: 0 <= id < |t.semaphores| ==> Conserved(t, id)) && !t.overflowed
  {
    var t := Apply(s, a);
    assert a.call in s.calls ==> CallOk(s, a.call);
    if a.Leave? && s.calls[a.call].Holding? {
      var id := s.calls[a.call].id;
      assert Conserved(s, id);
      HoldersFreed(s.calls, a.call, Finished(a.raised), id);
      assert a.call in Holders(s.calls, id);
    }
    forall id | 0 <= id < |t.semaphores| ensures Conserved(t, id) {
      if id < |s.semaphores| {
        assert Conserved(s, id);
      } else {
        FreshUnheld(s);
      }
      var p := t.calls[a.call];
      if a.Acquire? && p.id == id {
        HoldersTaken(s.calls, a.call, p, id);
      } else if !(a.Leave? && s.calls[a.call].Holding? && s.calls[a.call].id == id) {
        HoldersKept(s.calls, a.call, p, id);
      }
    }
  }

  lemma InvNames(s: State, a: Action)
    requires Inv(s) && Enabled(s, a)
    ensures var t := Apply(s, a); forall name :: name in t.first ==> NameOk(t, name)
  {
    var t := Apply(s, a);
    assert a.call in s.calls ==> CallOk(s, a.call);
    forall name | name in t.first ensures NameOk(t, name) {
      if name in s.first {
        assert NameOk(s, name);
      }
    }
  }

  lemma InvStep(s: State, a: Action)
    requires Inv(s) && Enabled(s, a)
    ensures Inv(Apply(s, a))
  {
    InvCalls(s, a);
    InvLimiters(s, a);
    InvSlots(s, a);
    InvNames(s, a);
  }

  // ---------- Every run ----------

  // The state after some steps of any calls in any interleaving; steps that are not enabled do not happen.
  function Run(s: State, actions: seq<Action>): State
    decreases actions
  {
    if actions == [] then s
    else Run(if Enabled(s, actions[0]) then Apply(s, actions[0]) else s, actions[1..])
  }

  lemma {:induction false} RunInv(s: State, actions: seq<Action>)
    requires Inv(s)
    ensures Inv(Run(s, actions))
    decreases actions
  {
    if actions != [] {
      if Enabled(s, actions[0]) {
        InvStep(s, actions[0]);
        RunInv(Apply(s, actions[0]), actions[1..]);
      } else {
        RunInv(s, actions[1..]);
      }
    }
  }

  function HoldersOf(calls: map<nat, Phase>, name: string): set<nat> {
    set c | c in calls && calls[c].Holding? && calls[c].name == name
  }

  lemma SameHolders(s: State, name: string)
    requires Inv(s) && name in s.limiters
    ensures HoldersOf(s.calls, name) == Holders(s.calls, s.limiters[name])
  {
    assert LimiterOk(s, name);
    forall c | c in s.calls && s.calls[c].Holding?
      ensures s.calls[c].name == name <==> s.calls[c].id == s.limiters[name]
    {
      assert CallOk(s, c);
    }
  }

  // In every interleaving there is one limiter for a name; its free slots and the calls inside its body add up to
  // the size that the first caller of that name gave, so no more calls than that are ever inside; and no release
  // exceeds the bound.
  lemma SlotsConserved(actions: seq<Action>, name: string)
    ensures var s := Run(INITIAL, actions);
      && !s.overflowed
      && (name in s.limiters ==>
            && name in s.first && s.limiters[name] < |s.semaphores|
            && 0 <= s.semaphores[s.limiters[name]].free
            && s.semaphores[s.limiters[name]].free + |HoldersOf(s.calls, name)| == s.first[name])
      && (name !in s.limiters ==> HoldersOf(s.calls, name) == {})
  {
    var s := Run(INITIAL, actions);
    RunInv(INITIAL, actions);
    if name in s.limiters {
      assert LimiterOk(s, name);
      assert Conserved(s, s.limiters[name]);
      SameHolders(s, name);
    } else {
      forall c | c in s.calls && s.calls[c].Holding? ensures s.calls[c].name != name {
        assert CallOk(s, c);
      }
    }
  }

  // A call that waits while no other call is inside can go on: no slot is ever lost, whatever the bodies raised.
  lemma NoSlotLost(actions: seq<Action>, call: nat)
    ensures var s := Run(INITIAL, actions);
      call in s.calls && s.calls[call].Waiting? && HoldersOf(s.calls, s.calls[call].name) == {} ==>
        Enabled(s, Acquire(call))
  {
    var s := Run(INITIAL, actions);
    RunInv(INITIAL, actions);
    if call in s.calls && s.calls[call].Waiting? {
      var name := s.calls[call].name;
      assert CallOk(s, call);
      assert LimiterOk(s, name);
      assert Conserved(s, s.limiters[name]);
      SameHolders(s, name);
    }
  }

  lemma SizeStep(s: State, a: Action, name: string)
    requires Inv(s) && Enabled(s, a)
    ensures name in s.first ==> name in Apply(s, a).first && Apply(s, a).first[name] == s.first[name]
    ensures name in s.limiters ==> name in Apply(s, a).limiters && Apply(s, a).limiters[name] == s.limiters[name]
  {
    if !a.Start? {
      assert CallOk(s, a.call);
    }
  }

  // In every run a name keeps its semaphore, and the size that the first call asked for is its size, whatever later
  // callers ask for.
  lemma {:induction false} FirstSizeStays(s: State, actions: seq<Action>, name: string)
    requires Inv(s) && name in s.first
    ensures var t := Run(s, actions);
      && (name in s.limiters ==> name in t.limiters && t.limiters[name] == s.limiters[name])
      && (name in t.limiters ==>
            t.limiters[name] < |t.semaphores| && t.semaphores[t.limiters[name]].size == s.first[name])
    decreases actions
  {
    if actions == [] {
      if name in s.limiters {
        assert LimiterOk(s, name);
      }
    } else {
      var a := actions[0];
      if Enabled(s, a) {
        InvStep(s, a);
        SizeStep(s, a, name);
        FirstSizeStays(Apply(s, a), actions[1..], name);
      } else {
        FirstSizeStays(s, actions[1..], name);
      }
    }
  }

  // ---------- Calls without a limit ----------

  function Without(actions: seq<Action>, call: nat): seq<Action> {
    if actions == [] then []
    else (if actions[0].call == call then [] else [actions[0]]) + Without(actions[1..], call)
  }

  // All states equal but for that call, which the second does not have and which waits for nothing in the first.
  predicate SameElse(s: State, t: State, call: nat) {
    && s == t.(calls := s.calls) && t.calls == s.calls - {call}
    && (call in s.calls ==> s.calls[call].Unlimited? || s.calls[call].Finished?)
  }

  predicate StartsUnlimited(a: Action, call: nat) {
    a.Start? && a.call == call ==> a.max <= 0
  }

  lemma OwnStep(s: State, t: State, a: Action, call: nat)
    requires SameElse(s, t, call) && a.call == call && StartsUnlimited(a, call) && Enabled(s, a)
    ensures SameElse(Apply(s, a), t, call)
  {
  }

  lemma OtherEnabled(s: State, t: State, a: Action, call: nat)
    requires SameElse(s, t, call) && a.call != call
    ensures Enabled(s, a) <==> Enabled(t, a)
  {
    assert a.call in s.calls <==> a.call in t.calls;
  }

  lemma MovedElse(calls: map<nat, Phase>, others: map<nat, Phase>, call: nat, other: nat, p: Phase)
    requires others == calls - {call} && other != call
    ensures others[other := p] == calls[other := p] - {call}
  {
  }

  lemma OtherStep(s: State, t: State, a: Action, call: nat)
    requires SameElse(s, t, call) && a.call != call && Enabled(s, a)
    ensures Enabled(t, a) && SameElse(Apply(s, a), Apply(t, a), call)
  {
    hide Enabled;
    OtherEnabled(s, t, a, call);
    var after, other := Apply(s, a), Apply(t, a);
    StepMoves(s, a);
    StepMoves(t, a);
    SamePhase(s, t, a);
    SameShared(s, t, a);
    MovedElse(s.calls, t.calls, call, a.call, after.calls[a.call]);
  }

  // What a step does otherwise depends on its own call and on what all calls share.
  predicate SameFor(s: State, t: State, a: Action) {
    s == t.(calls := s.calls) &&
    (a.call in s.calls && a.call in t.calls ==> s.calls[a.call] == t.calls[a.call])
  }

  lemma SamePhase(s: State, t: State, a: Action)
    requires Enabled(s, a) && Enabled(t, a) && SameFor(s, t, a)
    ensures a.call in Apply(s, a).calls && a.call in Apply(t, a).calls
    ensures Apply(s, a).calls[a.call] == Apply(t, a).calls[a.call]
  {
  }

  lemma SameShared(s: State, t: State, a: Action)
    requires Enabled(s, a) && Enabled(t, a) && SameFor(s, t, a)
    ensures Apply(s, a) == Apply(t, a).(calls := Apply(s, a).calls)
  {
  }

  lemma {:induction false} RunElse(s: State, t: State, actions: seq<Action>, call: nat)
    requires SameElse(s, t, call) && forall a :: a in actions ==> StartsUnlimited(a, call)
    ensures SameElse(Run(s, actions), Run(t, Without(actions, call)), call)
    decreases actions
  {
    if actions != [] {
      var a, rest := actions[0], actions[1..];
      assert a in actions && forall b :: b in rest ==> b in actions;
      if a.call == call {
        assert [] + Without(rest, call) == Without(rest, call);
        if Enabled(s, a) {
          OwnStep(s, t, a, call);
          RunElse(Apply(s, a), t, rest, call);
        } else {
          RunElse(s, t, rest, call);
        }
      } else {
        OtherEnabled(s, t, a, call);
        assert ([a] + Without(rest, call))[1..] == Without(rest, call);
        if Enabled(s, a) {
          OtherStep(s, t, a, call);
          RunElse(Apply(s, a), Apply(t, a), rest, call);
        } else {
          RunElse(s, t, rest, call);
        }
      }
    }
  }

  // In every interleaving a call with max_workers <= 0 touches neither the lock, the registry, a count nor another
  // call: the run is the same without its steps. It is never kept waiting.
  lemma UnlimitedTouchesNothing(s: State, actions: seq<Action>, call: nat, raised: bool)
    requires call !in s.calls && forall a :: a in actions ==> StartsUnlimited(a, call)
    ensures SameElse(Run(s, actions), Run(s, Without(actions, call)), call)
    ensures var t := Run(s, actions);
      call in t.calls ==> t.calls[call].Finished? || Enabled(t, Leave(call, raised))
  {
    assert s.calls - {call} == s.calls;
    RunElse(s, s, actions, call);
  }

  // ---------- The shared objects ----------

  // The registry dictionary and the semaphores in it; a semaphore's count is changed in place.
  class Registry {
    var limiters: map<string, nat>
    var semaphores: seq<Semaphore>

    constructor ()
      ensures Shows(INITIAL)
    {
      limiters, semaphores := map[], [];
    }

    ghost predicate Shows(s: State)
      reads this
    {
      limiters == s.limiters && semaphores == s.semaphores
    }

    // _get_limiter, by the call that holds the lock.
    method GetLimiter(name: string, max: int, ghost s: State, ghost call: nat) returns (id: nat)
      requires Inv(s) && Shows(s) && call in s.calls && s.calls[call] == Locked(name, max)
      modifies this
      ensures var t := Run(s, [LookUp(call), Make(call), Register(call)]);
        Shows(t) && t == s.(calls := s.calls[call := Registered(name, id)], limiters := limiters,
                            semaphores := semaphores)
    {
      assert CallOk(s, call);
      ghost var looked := Apply(s, LookUp(call));
      if name in limiters {
        id := limiters[name];
      } else {
        id := |semaphores|;
        semaphores := semaphores + [Semaphore(max, max)];
        limiters := limiters[name := id];
        ghost var made := Apply(looked, Make(call));
        assert made.calls[call] == Made(name, id);
        assert Apply(made, Register(call)).calls[call] == Registered(name, id);
      }
      ghost var t := s.(calls := s.calls[call := Registered(name, id)], limiters := limiters, semaphores := semaphores);
      LockedSteps(s, call, t);
    }

    // limiter.acquire(), once a slot is free.
    method Acquire(id: nat, ghost s: State, ghost call: nat)
      requires Shows(s) && Enabled(s, Action.Acquire(call)) && s.calls[call].id == id
      modifies this
      ensures Shows(Apply(s, Action.Acquire(call)))
    {
      semaphores := semaphores[id := semaphores[id].(free := semaphores[id].free - 1)];
    }

    // limiter.release(), in the finally clause; it would raise ValueError beyond the bound.
    method Release(id: nat, ghost s: State, ghost call: nat, raised: bool) returns (overflow: bool)
      requires Inv(s) && Shows(s) && call in s.calls && s.calls[call].Holding? && s.calls[call].id == id
      modifies this
      ensures Enabled(s, Leave(call, raised)) && Shows(Apply(s, Leave(call, raised))) && !overflow
    {
      assert CallOk(s, call) && LimiterOk(s, s.calls[call].name);
      InvSlots(s, Leave(call, raised));
      overflow := semaphores[id].free >= semaphores[id].size;
      if !overflow {
        semaphores := semaphores[id := semaphores[id].(free := semaphores[id].free + 1)];
      }
    }
  }

  // Looking up, making and registering under the lock, in one: the last two do not happen if the first finds one.
  lemma LockedSteps(s: State, call: nat, t: State)
    requires call in s.calls && s.calls[call].Locked?
    requires var p := s.calls[call];
      if p.name in s.limiters then t == Apply(s, LookUp(call))
      else t == Apply(Apply(Apply(s, LookUp(call)), Make(call)), Register(call))
    ensures Run(s, [LookUp(call), Make(call), Register(call)]) == t
  {
    var a, b, c := LookUp(call), Make(call), Register(call);
    var s1 := Apply(s, a);
    assert [a, b, c][1..] == [b, c] && [b, c][1..] == [c] && [c][1..] == [];
    assert Run(s, [a, b, c]) == Run(s1, [b, c]);
    var s2 := if Enabled(s1, b) then Apply(s1, b) else s1;
    assert Run(s1, [b, c]) == Run(s2, [c]);
    var s3 := if Enabled(s2, c) then Apply(s2, c) else s2;
    assert Run(s2, [c]) == Run(s3, []);
  }
}
