/** The registry of userspace tunnels: concurrent Up, Reload and Down calls hand started tunnels over. */
module TunnelRegistry {
  datatype Entry = Entry(conf: string, impl: nat)

  /** A call between its critical section and its other work: Up holds the tunnel it started until it registers it,
      Down the one it took out until it closes it. */
  datatype Call = UpHolding(name: string, entry: Entry) | DownHolding(entry: Entry)

  /** closes counts the Close calls per tunnel; started records the config each tunnel was started from. */
  datatype State = State(registry: map<string, Entry>, calls: map<nat, Call>,
                         closes: multiset<nat>, started: seq<string>)

  function Init(): State { State(map[], map[], multiset{}, []) }

  /** Up's critical section: the old tunnel is closed and replaced. */
  function Committed(registry: map<string, Entry>, closes: multiset<nat>, name: string, entry: Entry)
    : (map<string, Entry>, multiset<nat>)
  {
    (registry[name := entry], if name in registry then closes + multiset{registry[name].impl} else closes)
  }

  /** Start: the config parsed and the tunnel came up (otherwise Up returns without a trace). Reload is Up. */
  datatype Step =
    | Start(call: nat, name: string, conf: string)
    | Commit(call: nat)
    | Take(call: nat, name: string)
    | Close(call: nat)

  predicate Enabled(s: State, step: Step) {
    match step
    case Start(c, _, _) => c !in s.calls
    case Commit(c) => c in s.calls && s.calls[c].UpHolding?
    case Take(c, _) => c !in s.calls
    case Close(c) => c in s.calls && s.calls[c].DownHolding?
  }

  function Next(s: State, step: Step): State
    requires Enabled(s, step)
  {
    match step
    case Start(c, name, conf) =>
      s.(calls := s.calls[c := UpHolding(name, Entry(conf, |s.started|))], started := s.started + [conf])
    case Commit(c) =>
      var (registry, closes) := Committed(s.registry, s.closes, s.calls[c].name, s.calls[c].entry);
      s.(registry := registry, closes := closes, calls := s.calls - {c})
    case Take(c, name) =>
      if name !in s.registry then s
      else s.(registry := s.registry - {name}, calls := s.calls[c := DownHolding(s.registry[name])])
    case Close(c) => s.(closes := s.closes + multiset{s.calls[c].entry.impl}, calls := s.calls - {c})
  }

  // ---------- ownership ----------

  predicate Registered(s: State, t: nat) { exists name :: name in s.registry && s.registry[name].impl == t }

  predicate Held(s: State, t: nat) { exists c :: c in s.calls && s.calls[c].entry.impl == t }

  /** In exactly one place: registered, in the hands of a call, or closed once. */
  predicate OwnedOnce(s: State, t: nat) {
    (Registered(s, t) && !Held(s, t) && s.closes[t] == 0)
    || (!Registered(s, t) && Held(s, t) && s.closes[t] == 0)
    || (!Registered(s, t) && !Held(s, t) && s.closes[t] == 1)
  }

  predicate IsStarted(s: State, e: Entry) { e.impl < |s.started| && s.started[e.impl] == e.conf }

  ghost predicate Inv(s: State) {
    (forall t: nat :: if t < |s.started| then OwnedOnce(s, t) else s.closes[t] == 0)
    && (forall n, m :: n in s.registry && m in s.registry && s.registry[n].impl == s.registry[m].impl ==> n == m)
    && (forall c, d :: c in s.calls && d in s.calls && s.calls[c].entry.impl == s.calls[d].entry.impl ==> c == d)
    && (forall n :: n in s.registry ==> IsStarted(s, s.registry[n]))
    && (forall c :: c in s.calls ==> IsStarted(s, s.calls[c].entry))
  }

  lemma StartKeepsInv(s: State, step: Step)
    requires Inv(s) && step.Start? && Enabled(s, step)
    ensures Inv(Next(s, step))
  {
    var t := Next(s, step);
    forall x: nat | x < |t.started| ensures OwnedOnce(t, x) {
      if x == |s.started| {
        assert t.calls[step.call].entry.impl == x;
      } else {
        assert OwnedOnce(s, x);
        if Held(s, x) {
          var c :| c in s.calls && s.calls[c].entry.impl == x;
          assert t.calls[c] == s.calls[c];
        }
      }
    }
  }

  lemma CommitKeepsInv(s: State, step: Step)
    requires Inv(s) && step.Commit? && Enabled(s, step)
    ensures Inv(Next(s, step))
  {
    var t := Next(s, step);
    var name, e := s.calls[step.call].name, s.calls[step.call].entry;
    assert Held(s, e.impl);
    forall x: nat | x < |t.started| ensures OwnedOnce(t, x) {
      assert OwnedOnce(s, x);
      if x == e.impl {
        assert t.registry[name].impl == x;
      } else if Registered(s, x) {
        var n :| n in s.registry && s.registry[n].impl == x;
        assert n != name ==> t.registry[n] == s.registry[n];
      } else if Held(s, x) {
        var c :| c in s.calls && s.calls[c].entry.impl == x;
        assert c in t.calls && t.calls[c] == s.calls[c];
      }
    }
  }

  lemma TakeKeepsOwner(s: State, step: Step, x: nat)
    requires Inv(s) && step.Take? && Enabled(s, step) && step.name in s.registry && x < |s.started|
    ensures OwnedOnce(Next(s, step), x)
  {
    var t := Next(s, step);
    var e := s.registry[step.name];
    assert OwnedOnce(s, x);
    if x == e.impl {
      assert Registered(s, x);
      assert t.calls[step.call].entry.impl == x;
    } else if Registered(s, x) {
      var n :| n in s.registry && s.registry[n].impl == x;
      assert t.registry[n] == s.registry[n];
    } else if Held(s, x) {
      var c :| c in s.calls && s.calls[c].entry.impl == x;
      assert t.calls[c] == s.calls[c];
    }
  }

  lemma TakeKeepsInv(s: State, step: Step)
    requires Inv(s) && step.Take? && Enabled(s, step)
    ensures Inv(Next(s, step))
  {
    if step.name in s.registry {
      var e := s.registry[step.name];
      assert Registered(s, e.impl) && OwnedOnce(s, e.impl);
      assert !Held(s, e.impl);
      forall x: nat | x < |s.started| ensures OwnedOnce(Next(s, step), x) {
        TakeKeepsOwner(s, step, x);
      }
      hide OwnedOnce, Registered;
    }
  }

  lemma CloseKeepsInv(s: State, step: Step)
    requires Inv(s) && step.Close? && Enabled(s, step)
    ensures Inv(Next(s, step))
  {
    var t := Next(s, step);
    var e := s.calls[step.call].entry;
    assert Held(s, e.impl);
    forall x: nat | x < |t.started| ensures OwnedOnce(t, x) {
      assert OwnedOnce(s, x);
      if x != e.impl && Held(s, x) {
        var c :| c in s.calls && s.calls[c].entry.impl == x;
        assert c in t.calls && t.calls[c] == s.calls[c];
      }
    }
  }

  ghost predicate IsRun(states: seq<State>, steps: seq<Step>) {
    |states| == |steps| + 1 && states[0] == Init()
    && forall i :: 0 <= i < |steps| ==> Enabled(states[i], steps[i]) && states[i + 1] == Next(states[i], steps[i])
  }

  /** In every interleaving each started tunnel is registered under one name, held by one call, or was closed exactly
      once; and every registered entry shows the config its tunnel was started from. */
  lemma {:induction false} OwnershipHolds(states: seq<State>, steps: seq<Step>, n: nat)
    requires IsRun(states, steps) && n <= |steps|
    ensures Inv(states[n])
  {
    hide Next, Enabled, Inv;
    if n == 0 {
      InitIsOwned();
    } else {
      OwnershipHolds(states, steps, n - 1);
      var s, step := states[n - 1], steps[n - 1];
      match step {
        case Start(_, _, _) => StartKeepsInv(s, step);
        case Commit(_) => CommitKeepsInv(s, step);
        case Take(_, _) => TakeKeepsInv(s, step);
        case Close(_) => CloseKeepsInv(s, step);
      }
    }
  }

  lemma InitIsOwned()
    ensures Inv(Init())
  {}

  /** Once every call has returned, the open tunnels are exactly the registered ones: none leaks. */
  lemma NoLeakAtRest(states: seq<State>, steps: seq<Step>, t: nat)
    requires IsRun(states, steps) && states[|steps|].calls == map[] && t < |states[|steps|].started|
    ensures var s := states[|steps|];
            (s.closes[t] == 0 <==> Registered(s, t)) && s.closes[t] <= 1
  {
    hide Next, Enabled;
    OwnershipHolds(states, steps, |steps|);
    assert OwnedOnce(states[|steps|], t);
  }

  // ---------- the critical sections ----------

  class Registry {
    var entries: map<string, Entry>
    var closes: multiset<nat>

    constructor ()
      ensures entries == map[] && closes == multiset{}
    {
      entries, closes := map[], multiset{};
    }

    /** The locked part of Up. */
    method Commit(name: string, conf: string, impl: nat)
      modifies this
      ensures (entries, closes) == Committed(old(entries), old(closes), name, Entry(conf, impl))
    {
      if name in entries {
        closes := closes + multiset{entries[name].impl};
      }
      entries := entries[name := Entry(conf, impl)];
    }

    /** The locked part of Down: what it returns is closed by the caller. */
    method Take(name: string) returns (found: bool, entry: Entry)
      modifies this`entries
      ensures found == (name in old(entries)) && (found ==> entry == old(entries)[name])
      ensures entries == old(entries) - {name}
    {
      found, entry := name in entries, Entry("", 0);
      if found {
        entry := entries[name];
      }
      entries := entries - {name};
    }

    method Running(name: string) returns (up: bool)
      ensures up == (name in entries)
    {
      up := name in entries;
    }
  }
}
