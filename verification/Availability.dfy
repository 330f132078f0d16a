/** The availability network: subjects with a state, and observers, which are subjects whose state follows
    from the states of the subjects that they observe. Updates run through the network depth-first. */
module Availability {

  datatype AvailabilityState = Online | Offline

  /** The state of an observer that knows these states. */
  function Computed(states: map<string, AvailabilityState>): AvailabilityState {
    if states != map[] && forall n | n in states :: states[n] == Online then Online else Offline
  }

  /** A connection from a subject to an observer that has not been told the subject's state yet. */
  datatype Edge = Edge(subject: Subject, observer: Subject)

  /** A subject; an observer is one that is connected to others. `slots` are the observers connected to the
      signal, in the order in which they are called. */
  class Subject {
    const name: string
    const isObserver: bool
    ghost const rank: nat
    var state: AvailabilityState
    var slots: seq<Subject>
    var states: map<string, AvailabilityState>
    ghost var sources: map<string, Subject>

    constructor (name: string, isObserver: bool, ghost rank: nat)
      ensures this.name == name && this.isObserver == isObserver && this.rank == rank
      ensures state == Offline && slots == [] && states == map[] && sources == map[]
    {
      this.name := name;
      this.isObserver := isObserver;
      this.rank := rank;
      state := Offline;
      slots := [];
      states := map[];
      sources := map[];
    }

    /** The observers that are told after the first `i`. */
    ghost function Pending(i: nat): set<Edge>
      reads this`slots
    {
      set k | i <= k < |slots| :: Edge(this, slots[k])
    }

    method SetState(s: AvailabilityState, ghost net: set<Subject>, ghost stale: set<Edge>)
      requires this in net && Wired(net) && Keyed(net) && UpToDate(net, stale) && Settled(net, {this})
      requires isObserver ==> s == Computed(states)
      modifies this`state
      ensures state == s
      ensures UpToDate(net, stale + Pending(0)) && Settled(net, {})
    {
      hide Computed, Pending;
      state := s;
      AllPending(this);
    }

    method SetEntry(subject: Subject, ghost net: set<Subject>, ghost stale: set<Edge>)
      requires this in net && subject in net && subject.name in sources && sources[subject.name] == subject
      requires Wired(net) && Keyed(net) && UpToDate(net, stale + {Edge(subject, this)}) && Settled(net, {})
      modifies this`states
      ensures states == old(states)[subject.name := subject.state]
      ensures Keyed(net) && UpToDate(net, stale) && Settled(net, {this})
    {
      hide Computed;
      forall n | n in sources
        ensures sources[n] == subject <==> n == subject.name
      {
        assert sources[n].name == n;
      }
      hide Wired;
      states := states[subject.name := subject.state];
      forall o, n | o in net && n in o.sources && o.sources[n] in net && Edge(o.sources[n], o) !in stale
        ensures n in o.states && o.states[n] == o.sources[n].state
      {
        if o != this || n != subject.name {
          assert Edge(o.sources[n], o) !in stale + {Edge(subject, this)};
          assert n in old(o.states) && o.states[n] == old(o.states[n]);
        }
      }
    }

    /** Sets the state, and tells the observers one after the other when it is a change. While that goes on,
        the `stale` connections of subjects further up still wait for their turn. */
    method Availability(s: AvailabilityState, ghost net: set<Subject>, ghost live: set<Subject>, ghost stale: set<Edge>)
      requires this in live && Wired(net) && Live(net, live)
      requires Keyed(net) && UpToDate(net, stale) && Settled(net, {this})
      requires isObserver ==> s == Computed(states)
      modifies net`state, net`states
      ensures Keyed(net) && UpToDate(net, stale) && Settled(net, {})
      ensures state == s && states == old(states)
      ensures OnlyBelow(net, this)
      decreases rank, 0
    {
      assert this in net;
      hide Wired, Live, Keyed, UpToDate, Settled, Pending;
      if state != s {
        SetState(s, net, stale);
        var i := 0;
        while i < |slots|
          invariant i <= |slots|
          invariant Keyed(net) && UpToDate(net, stale + Pending(i)) && Settled(net, {})
          invariant state == s && states == old(states)
          invariant OnlyBelow(net, this)
        {
          ToTellNext(net, live, this, i, stale);
          slots[i].OnUpdate(this, s, net, live, stale + Pending(i + 1));
          i := i + 1;
        }
        AllTold(net, this, stale);
      } else {
        Unchanged(net, this);
      }
    }

    /** What an observer does when a subject tells its new state. */
    method OnUpdate(subject: Subject, s: AvailabilityState, ghost net: set<Subject>, ghost live: set<Subject>,
                    ghost stale: set<Edge>)
      requires this in live && Wired(net) && Live(net, live)
      requires Keyed(net) && UpToDate(net, stale + {Edge(subject, this)}) && Settled(net, {})
      requires subject in live && this in subject.slots && subject.state == s
      modifies net`state, net`states
      ensures Keyed(net) && UpToDate(net, stale) && Settled(net, {})
      ensures OnlyBelow(net, this)
      decreases rank, 2
    {
      hide Wired, Live, Keyed, UpToDate, Settled;
      ToldIsBelow(net, live, subject, this);
      SetEntry(subject, net, stale);
      if s == Online {
        UpdateAvailability(net, live, stale);
      } else {
        assert states[subject.name] == Offline;
        Availability(Offline, net, live, stale);
      }
    }

    method UpdateAvailability(ghost net: set<Subject>, ghost live: set<Subject>, ghost stale: set<Edge>)
      requires this in live && Wired(net) && Live(net, live)
      requires Keyed(net) && UpToDate(net, stale) && Settled(net, {this})
      modifies net`state, net`states
      ensures Keyed(net) && UpToDate(net, stale) && Settled(net, {})
      ensures state == Computed(states) && states == old(states)
      ensures OnlyBelow(net, this)
      decreases rank, 1
    {
      if states == map[] {
        Availability(Offline, net, live, stale);
        return;
      }
      var ownStatus := Online;
      var rest := states.Keys;
      while rest != {}
        invariant rest <= states.Keys && ownStatus == Online
        invariant forall n | n in states && n !in rest :: states[n] == Online
        decreases |rest|
      {
        var n :| n in rest;
        if states[n] != Online {
          ownStatus := Offline;
          break;
        }
        rest := rest - {n};
      }
      Availability(ownStatus, net, live, stale);
    }

    method Connect(subject: Subject, ghost net: set<Subject>, ghost live: set<Subject>)
      requires Wired(net) && Live(net, live) && this in live && isObserver && rank < subject.rank
      modifies subject`slots
      ensures subject.slots == old(subject.slots) + [this]
      ensures Wired(net)
      ensures forall x, o | x in live && o in x.slots ::
        o in live && (x.name in o.sources || (x == subject && o == this))
    {
      subject.slots := subject.slots + [this];
    }

    ghost method SetSource(subject: Subject, net: set<Subject>, live: set<Subject>)
      requires Wired(net) && live <= net && this in net && subject in net && this in subject.slots
      requires forall x, o | x in live && o in x.slots ::
        o in live && (x.name in o.sources || (x == subject && o == this))
      modifies this`sources
      ensures Live(net, live)
      ensures sources == old(sources)[subject.name := subject]
      ensures Wired(net)
      ensures subject.name in old(sources) ==> sources == old(sources)
    {
      assert subject.name in sources ==> sources[subject.name] == subject;
      sources := sources[subject.name := subject];
    }

    method Learn(subject: Subject, ghost net: set<Subject>, ghost live: set<Subject>)
      requires Wired(net) && Keyed(net) && UpToDate(net, {}) && Settled(net, {})
      requires live <= net && this in net && subject in net && this in subject.slots
      requires forall x, o | x in live && o in x.slots ::
        o in live && (x.name in o.sources || (x == subject && o == this))
      modifies this`states, this`sources
      ensures states == if subject.name in old(states) then old(states) else old(states)[subject.name := subject.state]
      ensures sources == old(sources)[subject.name := subject]
      ensures Wired(net) && Live(net, live) && Keyed(net) && UpToDate(net, {}) && Settled(net, {this})
    {
      hide Computed, Wired, Live;
      SetSource(subject, net, live);
      if subject.name !in states {
        states := states[subject.name := subject.state];
      }
      forall o, n | o in net && n in o.sources && o.sources[n] in net
        ensures n in o.states && o.states[n] == o.sources[n].state
      {
        if o != this || n != subject.name {
          assert n in old(o.sources) && o.sources[n] == old(o.sources[n]) && o.states[n] == old(o.states[n]);
        }
      }
    }

    ghost method DropSource(subject: Subject, net: set<Subject>, live: set<Subject>)
      requires Wired(net) && Live(net, live) && this in net && subject in net && subject !in live
      modifies this`sources
      ensures sources == old(sources) - {subject.name}
      ensures Wired(net) && Live(net, live)
    {
      sources := sources - {subject.name};
    }

    method Forget(subject: Subject, ghost net: set<Subject>, ghost live: set<Subject>)
      requires Wired(net) && Live(net, live) && Keyed(net) && UpToDate(net, {}) && Settled(net, {})
      requires this in net && subject in net && subject !in live
      modifies this`states, this`sources
      ensures states == old(states) - {subject.name} && sources == old(sources) - {subject.name}
      ensures Wired(net) && Live(net, live) && Keyed(net) && UpToDate(net, {}) && Settled(net, {this})
    {
      hide Computed, Wired, Live;
      DropSource(subject, net, live);
      states := states - {subject.name};
      forall o, n | o in net && n in o.sources && o.sources[n] in net
        ensures n in o.states && o.states[n] == o.sources[n].state
      {
        assert n in old(o.sources) && o.sources[n] == old(o.sources[n]) && o.states[n] == old(o.states[n]);
      }
    }

    /** Connects the observer to a subject. */
    method Add(subject: Subject, ghost net: set<Subject>, ghost live: set<Subject>)
      requires Wired(net) && Live(net, live) && Keyed(net) && UpToDate(net, {}) && Settled(net, {})
      requires this in live && subject in live
      requires isObserver && rank < subject.rank
      modifies this`sources, subject`slots, net`state, net`states
      ensures Wired(net) && Live(net, live) && Keyed(net) && UpToDate(net, {}) && Settled(net, {})
      ensures states ==
        if subject.name in old(states) then old(states) else old(states)[subject.name := old(subject.state)]
      ensures sources == old(sources)[subject.name := subject]
      ensures subject.slots == old(subject.slots) + [this]
      ensures forall y | y in net && y != this && (y.rank >= rank || !y.isObserver) ::
        y.state == old(y.state) && y.states == old(y.states)
    {
      hide Wired, Live, Keyed, UpToDate, Settled, Computed;
      InNet(net, live, this);
      Connect(subject, net, live);
      Learn(subject, net, live);
      UpdateAvailability(net, live, {});
    }

    /** Forgets a subject. The connection itself stays, so from then on the subject must not change: it
        is not among those that may. */
    method Remove(subject: Subject, ghost net: set<Subject>, ghost live: set<Subject>)
      requires Wired(net) && Live(net, live) && Keyed(net) && UpToDate(net, {}) && Settled(net, {})
      requires this in live && subject in net && isObserver
      requires subject.name in states ==> subject !in live
      modifies this`sources, net`state, net`states
      ensures Wired(net) && Live(net, live) && Keyed(net) && UpToDate(net, {}) && Settled(net, {})
      ensures states == old(states) - {subject.name} && sources == old(sources) - {subject.name}
      ensures forall y | y in net && y != this && (y.rank >= rank || !y.isObserver) ::
        y.state == old(y.state) && y.states == old(y.states)
    {
      hide Wired, Live, Keyed, UpToDate, Settled, Computed;
      InNet(net, live, this);
      if subject.name in states {
        Forget(subject, net, live);
        UpdateAvailability(net, live, {});
      }
    }
  }

  /** Observers come after what they observe, names tell subjects apart, and observers only know subjects
      that they are connected to. */
  ghost predicate Wired(net: set<Subject>)
    reads net`slots, net`sources
  {
    && (forall x, o | x in net && o in x.slots :: o in net && o.isObserver && o.rank < x.rank)
    && (forall x, y | x in net && y in net && x.name == y.name :: x == y)
    && (forall o, n | o in net && n in o.sources ::
          o.sources[n] in net && o.sources[n].name == n && o in o.sources[n].slots)
  }

  /** Subjects that may still change: everything they reach knows what reaches it. */
  ghost predicate Live(net: set<Subject>, live: set<Subject>)
    reads live`slots, net`sources
  {
    && live <= net
    && (forall x, o | x in live && o in x.slots :: o in live && x.name in o.sources)
  }

  ghost predicate Keyed(net: set<Subject>)
    reads net`sources, net`states
  {
    forall o | o in net :: o.states.Keys == o.sources.Keys
  }

  /** Observers hold the states of their subjects, except over connections that still wait. */
  ghost predicate UpToDate(net: set<Subject>, stale: set<Edge>)
    reads net`sources, net`states, net`state
  {
    forall o, n | o in net && n in o.sources && o.sources[n] in net && Edge(o.sources[n], o) !in stale ::
      n in o.states && o.states[n] == o.sources[n].state
  }

  /** The state of every observer is the one computed from all it knows. */
  ghost predicate Settled(net: set<Subject>, except: set<Subject>)
    reads net`state, net`states
  {
    forall o | o in net && o !in except && o.isObserver :: o.state == Computed(o.states)
  }

  lemma InNet(net: set<Subject>, live: set<Subject>, o: Subject)
    requires Live(net, live) && Keyed(net) && o in live
    ensures live <= net && o.states.Keys == o.sources.Keys
  {
  }

  lemma AllPending(x: Subject)
    ensures forall o | o in x.slots :: Edge(x, o) in x.Pending(0)
  {
    forall o | o in x.slots
      ensures Edge(x, o) in x.Pending(0)
    {
      var k :| 0 <= k < |x.slots| && x.slots[k] == o;
      assert Edge(x, x.slots[k]) in x.Pending(0);
    }
  }

  lemma ToTellNext(net: set<Subject>, live: set<Subject>, x: Subject, i: nat, stale: set<Edge>)
    requires Wired(net) && Live(net, live) && x in live && i < |x.slots|
    requires UpToDate(net, stale + x.Pending(i))
    ensures UpToDate(net, stale + x.Pending(i + 1) + {Edge(x, x.slots[i])})
    ensures x.slots[i] in live && x.slots[i].rank < x.rank && x.slots[i].isObserver
  {
    assert x.slots[i] in x.slots;
    assert stale + x.Pending(i) <= stale + x.Pending(i + 1) + {Edge(x, x.slots[i])};
  }

  lemma AllTold(net: set<Subject>, x: Subject, stale: set<Edge>)
    requires UpToDate(net, stale + x.Pending(|x.slots|))
    ensures UpToDate(net, stale)
  {
    assert stale + x.Pending(|x.slots|) == stale;
  }

  lemma Unchanged(net: set<Subject>, x: Subject)
    requires Settled(net, {x}) && (x.isObserver ==> x.state == Computed(x.states))
    ensures Settled(net, {})
  {
  }

  lemma ToldIsBelow(net: set<Subject>, live: set<Subject>, x: Subject, o: Subject)
    requires Wired(net) && Live(net, live) && x in live && o in x.slots
    ensures x in net && o in net && x.name in o.sources && o.sources[x.name] == x
  {
  }

  /** A cascade changes no more than its origin and observers of smaller rank. */
  twostate predicate OnlyBelow(net: set<Subject>, x: Subject)
    reads net`state, net`states
  {
    forall y | y in net && y != x && (y.rank >= x.rank || !y.isObserver) ::
      y.state == old(y.state) && y.states == old(y.states)
  }

  ghost function Above(net: set<Subject>, x: Subject): set<Subject> {
    set y | y in net && y.rank > x.rank
  }

  lemma SourcesAreAbove(net: set<Subject>, o: Subject, n: string)
    requires Wired(net) && o in net && n in o.sources
    ensures o.sources[n] in net && Above(net, o.sources[n]) < Above(net, o)
  {
    var s := o.sources[n];
    assert s in net && o in s.slots;
    assert s !in Above(net, s) && s in Above(net, o);
  }

  /** What the state of a subject should be, from the states of the plain subjects alone. */
  ghost function FromLeaves(net: set<Subject>, x: Subject): AvailabilityState
    requires Wired(net) && x in net
    reads net
    decreases Above(net, x)
  {
    if !x.isObserver then x.state
    else if x.sources != map[] && forall n | n in x.sources ::
      (SourcesAreAbove(net, x, n); FromLeaves(net, x.sources[n])) == Online then Online
    else Offline
  }

  /** Between updates, what observers hold is true, and each one is online exactly when it observes
      something and all of that is online. */
  lemma ObserversAreRight(net: set<Subject>, o: Subject)
    requires Wired(net) && Keyed(net) && UpToDate(net, {}) && Settled(net, {})
    requires o in net && o.isObserver
    ensures forall n | n in o.states :: n in o.sources && o.states[n] == o.sources[n].state
    ensures o.state == Online <==> o.sources != map[] && forall n | n in o.sources :: o.sources[n].state == Online
  {
    assert o.states.Keys == o.sources.Keys;
    assert o.states == map[] <==> o.states.Keys == {};
    assert o.sources == map[] <==> o.sources.Keys == {};
  }

  /** Between updates, every state in the network is the one that follows from the plain subjects. */
  lemma {:induction false} StatesFollowFromLeaves(net: set<Subject>, x: Subject)
    requires Wired(net) && Keyed(net) && UpToDate(net, {}) && Settled(net, {}) && x in net
    ensures x.state == FromLeaves(net, x)
    decreases Above(net, x)
  {
    hide Wired, Keyed, UpToDate, Settled, Above;
    if x.isObserver {
      ObserversAreRight(net, x);
      forall n | n in x.sources
        ensures x.sources[n] in net && FromLeaves(net, x.sources[n]) == x.sources[n].state
      {
        SourcesAreAbove(net, x, n);
        StatesFollowFromLeaves(net, x.sources[n]);
      }
    }
  }

  /** A new subject, with a name of its own, joins without disturbing the others. */
  lemma NewSubjectJoins(net: set<Subject>, live: set<Subject>, x: Subject)
    requires Wired(net) && Live(net, live) && Keyed(net) && UpToDate(net, {}) && Settled(net, {})
    requires x !in net && forall y | y in net :: y.name != x.name
    requires x.state == Offline && x.slots == [] && x.states == map[] && x.sources == map[]
    ensures var more := net + {x};
      Wired(more) && Live(more, live + {x}) && Keyed(more) && UpToDate(more, {}) && Settled(more, {})
  {
    hide Computed;
    assert Computed(x.states) == Offline by { ComputedOfNothing(); }
  }

  lemma ComputedOfNothing()
    ensures Computed(map[]) == Offline
  {
  }

  datatype Update = Update(subject: Subject, state: AvailabilityState)

  /** The last state that the updates give to a subject. */
  function Last(updates: seq<Update>, x: Subject, before: AvailabilityState): AvailabilityState {
    if updates == [] then before
    else if updates[|updates| - 1].subject == x then updates[|updates| - 1].state
    else Last(updates[..|updates| - 1], x, before)
  }

  /** Whatever the plain subjects of a network do, all states follow from their last ones. */
  method Replay(updates: seq<Update>, ghost net: set<Subject>, ghost live: set<Subject>)
    requires Wired(net) && Live(net, live) && Keyed(net) && UpToDate(net, {}) && Settled(net, {})
    requires forall k | 0 <= k < |updates| :: updates[k].subject in live && !updates[k].subject.isObserver
    modifies net`state, net`states
    ensures Keyed(net) && UpToDate(net, {}) && Settled(net, {})
    ensures forall x | x in net && !x.isObserver :: x.state == Last(updates, x, old(x.state))
    ensures forall x | x in net :: x.state == FromLeaves(net, x)
  {
    hide Wired, Live, Keyed, UpToDate, Settled, FromLeaves;
    var i := 0;
    assert updates[..0] == [];
    while i < |updates|
      invariant i <= |updates|
      invariant Keyed(net) && UpToDate(net, {}) && Settled(net, {})
      invariant forall x | x in net && !x.isObserver :: x.state == Last(updates[..i], x, old(x.state))
    {
      var u := updates[i];
      assert updates[..i + 1][..i] == updates[..i];
      OneIsNotLeftOut(net, u.subject);
      u.subject.Availability(u.state, net, live, {});
      i := i + 1;
    }
    assert updates[..|updates|] == updates;
    forall x | x in net
      ensures x.state == FromLeaves(net, x)
    {
      StatesFollowFromLeaves(net, x);
    }
  }

  lemma OneIsNotLeftOut(net: set<Subject>, x: Subject)
    requires Settled(net, {})
    ensures Settled(net, {x})
  {
  }
}
