/** The reordering of incoming signals in front of the reader: a connection's candidates are held
    back until its description has been handed on. */
module PendingSignals {
  import opened GoStrings
  import opened Signaling

  /** How long a store may be idle before the ticker drops it, in milliseconds. */
  const IDLE_LIMIT := 30_000

  // ---------------------------------------------------------------------------------------------
  // What one signal does

  datatype StoreState = StoreState(pending: seq<Signal>, described: bool, lastActivity: int)

  function Sent(st: StoreState, s: Signal): seq<Signal> {
    if s.Describes() then [s] + st.pending
    else if st.described || !s.typ.Candidate? then [s]
    else []
  }

  function AfterSend(st: StoreState, s: Signal, now: int): StoreState {
    if s.Describes() then StoreState([], true, now)
    else if st.described || !s.typ.Candidate? then st.(lastActivity := now)
    else st.(pending := st.pending + [s], lastActivity := now)
  }

  /** The stores by connection ID, and everything handed to the reader so far. */
  datatype ConnState = ConnState(stores: map<nat, StoreState>, delivered: seq<Signal>)

  predicate Routed(s: Signal) {
    s.typ.Candidate? || s.Describes()
  }

  function StoreFor(c: ConnState, id: nat, now: int): StoreState {
    if id in c.stores then c.stores[id] else StoreState([], false, now)
  }

  function Receive(c: ConnState, s: Signal, now: int): ConnState {
    if Routed(s) then
      var st := StoreFor(c, s.connectionID, now);
      ConnState(c.stores[s.connectionID := AfterSend(st, s, now)], c.delivered + Sent(st, s))
    else
      c.(delivered := c.delivered + [s])
  }

  // ---------------------------------------------------------------------------------------------
  // The mutable objects

  class PendingStore {
    const c: Conn
    ghost const id: nat
    var pendingSignals: seq<Signal>
    var hasReceivedDescription: bool
    var lastActivity: int

    constructor (c: Conn, ghost id: nat, now: int)
      ensures this.c == c && this.id == id && State() == StoreState([], false, now)
    {
      this.c, this.id := c, id;
      pendingSignals, hasReceivedDescription, lastActivity := [], false, now;
    }

    function State(): StoreState
      reads this
    {
      StoreState(pendingSignals, hasReceivedDescription, lastActivity)
    }

    method TrySend(s: Signal, now: int)
      modifies this, c`signals
      ensures State() == AfterSend(old(State()), s, now)
      ensures c.signals == old(c.signals) + Sent(old(State()), s)
    {
      lastActivity := now;
      if s.typ.Offer? || s.typ.Answer? {
        c.signals := c.signals + [s];
        hasReceivedDescription := true;
        for i := 0 to |pendingSignals|
          invariant pendingSignals == old(pendingSignals) && hasReceivedDescription && lastActivity == now
          invariant c.signals == old(c.signals) + [s] + pendingSignals[..i]
        {
          c.signals := c.signals + [pendingSignals[i]];
        }
        pendingSignals := [];
        return;
      }
      if hasReceivedDescription || !s.typ.Candidate? {
        c.signals := c.signals + [s];
        return;
      }
      pendingSignals := pendingSignals + [s];
    }
  }

  class Conn {
    /** Everything sent on the channel that ReadSignal reads from. */
    var signals: seq<Signal>
    var pendingStore: map<nat, PendingStore>

    constructor ()
      ensures Valid() && State() == ConnState(map[], [])
    {
      signals, pendingStore := [], map[];
    }

    /** Every store belongs to this connection and to one ID only. */
    ghost predicate Valid()
      reads this, pendingStore.Values
    {
      forall id :: id in pendingStore ==> pendingStore[id].c == this && pendingStore[id].id == id
    }

    ghost function State(): ConnState
      reads this, pendingStore.Values
    {
      ConnState(map id | id in pendingStore :: pendingStore[id].State(), signals)
    }

    method HandleSignal(signal: Signal, now: int)
      requires Valid()
      modifies this, pendingStore.Values
      ensures Valid() && State() == Receive(old(State()), signal, now)
      ensures forall id :: id in old(pendingStore) ==> id in pendingStore && pendingStore[id] == old(pendingStore)[id]
      ensures forall id :: id in pendingStore && id !in old(pendingStore) ==> fresh(pendingStore[id])
    {
      hide Sent, AfterSend;
      if signal.typ.Candidate? || signal.typ.Offer? || signal.typ.Answer? {
        var id := signal.connectionID;
        ghost var was, before := StoreFor(State(), id, now), State().stores;
        var store := StoreOf(id, now);
        assert State().stores[id] == store.State() == was;
        label found:
        store.TrySend(signal, now);
        OneStoreChanged@found(id);
        ghost var between: map<nat, StoreState> := before[id := was];
        assert between[id := store.State()] == before[id := store.State()];
      } else {
        signals := signals + [signal];
      }
    }

    /** The mutex-held part of the above: the connection's store, made on its first signal. */
    method StoreOf(id: nat, now: int) returns (store: PendingStore)
      requires Valid()
      modifies this`pendingStore
      ensures Valid() && id in pendingStore && store == pendingStore[id]
      ensures if id in old(pendingStore) then pendingStore == old(pendingStore)
        else fresh(store) && pendingStore == old(pendingStore)[id := store]
      ensures State().stores == old(State()).stores[id := StoreFor(old(State()), id, now)]
    {
      if id !in pendingStore {
        var created := new PendingStore(this, id, now);
        pendingStore := pendingStore[id := created];
      }
      store := pendingStore[id];
    }

    twostate lemma OneStoreChanged(id: nat)
      requires old(Valid()) && pendingStore == old(pendingStore) && id in pendingStore
      requires forall j :: j in pendingStore && j != id ==> pendingStore[j].State() == old(pendingStore[j].State())
      ensures State().stores == old(State()).stores[id := pendingStore[id].State()]
    {}

    /** One turn of the ticker: idle stores are dropped with whatever they still hold back. */
    method EvictIdle(now: int)
      requires Valid()
      modifies this`pendingStore
      ensures Valid()
      ensures forall id :: (id in pendingStore <==>
        id in old(pendingStore) && now - old(pendingStore)[id].lastActivity <= 30_000)
      ensures forall id :: id in pendingStore ==> pendingStore[id] == old(pendingStore)[id]
    {
      var todo := pendingStore.Keys;
      while todo != {}
        invariant todo <= pendingStore.Keys <= old(pendingStore).Keys
        invariant forall id :: id in pendingStore ==> pendingStore[id] == old(pendingStore)[id]
        invariant forall id :: id in old(pendingStore) && id !in todo ==>
          (id in pendingStore <==> now - old(pendingStore)[id].lastActivity <= IDLE_LIMIT)
        decreases |todo|
      {
        var id :| id in todo;
        if now - pendingStore[id].lastActivity > IDLE_LIMIT {
          pendingStore := pendingStore - {id};
        }
        todo := todo - {id};
      }
    }
  }

  // ---------------------------------------------------------------------------------------------
  // Whole runs

  datatype Arrival = Arrival(signal: Signal, at: int)

  /** The state after a sequence of arrivals on a new connection. */
  function Received(arrivals: seq<Arrival>): ConnState {
    if arrivals == [] then ConnState(map[], [])
    else
      var n := |arrivals| - 1;
      Receive(Received(arrivals[..n]), arrivals[n].signal, arrivals[n].at)
  }

  /** The signals of one connection ID among the arrivals, in order. */
  function For(arrivals: seq<Arrival>, id: nat): seq<Signal> {
    if arrivals == [] then []
    else
      var n := |arrivals| - 1;
      For(arrivals[..n], id) + if arrivals[n].signal.connectionID == id then [arrivals[n].signal] else []
  }

  function OfConnection(id: nat): Signal -> bool {
    (s: Signal) => s.connectionID == id
  }

  function Only(signals: seq<Signal>, id: nat): seq<Signal> {
    Filter(signals, OfConnection(id))
  }

  predicate IsCandidate(s: Signal) {
    s.typ.Candidate?
  }

  predicate NotCandidate(s: Signal) {
    !s.typ.Candidate?
  }

  function Candidates(signals: seq<Signal>): seq<Signal> {
    Filter(signals, IsCandidate)
  }

  function NonCandidates(signals: seq<Signal>): seq<Signal> {
    Filter(signals, NotCandidate)
  }

  /** The position of the first description, or the length if there is none. */
  function FirstDescription(ins: seq<Signal>): (p: nat)
    ensures p <= |ins|
    ensures p < |ins| ==> ins[p].Describes()
    ensures forall i :: 0 <= i < p ==> !ins[i].Describes()
  {
    if ins == [] then 0
    else
      var n := |ins| - 1;
      var p := FirstDescription(ins[..n]);
      if p < n || ins[n].Describes() then p else n + 1
  }

  /** What the reader of one connection should see: candidates that came before the description come
      right after it, everything else where it arrived. */
  function Expected(ins: seq<Signal>): seq<Signal> {
    var p := FirstDescription(ins);
    if p == |ins| then NonCandidates(ins)
    else NonCandidates(ins[..p]) + [ins[p]] + Candidates(ins[..p]) + ins[p + 1..]
  }

  /** What should still be held back. */
  function StillHeld(ins: seq<Signal>): seq<Signal> {
    if FirstDescription(ins) == |ins| then Candidates(ins) else []
  }

  predicate Described(ins: seq<Signal>) {
    FirstDescription(ins) < |ins|
  }

  lemma FirstDescriptionSnoc(ins: seq<Signal>, s: Signal)
    ensures FirstDescription(ins + [s]) ==
      if Described(ins) || s.Describes() then FirstDescription(ins) else |ins| + 1
  {
    assert (ins + [s])[..|ins + [s]| - 1] == ins;
  }

  lemma ExpectedOnceDescribed(ins: seq<Signal>, s: Signal)
    requires Described(ins)
    ensures Described(ins + [s]) && Expected(ins + [s]) == Expected(ins) + [s]
  {
    var all := ins + [s];
    var p := FirstDescription(ins);
    FirstDescriptionSnoc(ins, s);
    assert all[..p] == ins[..p] && all[p + 1..] == ins[p + 1..] + [s];
    var front := NonCandidates(ins[..p]) + [ins[p]] + Candidates(ins[..p]);
    assert front + (ins[p + 1..] + [s]) == (front + ins[p + 1..]) + [s];
  }

  lemma ExpectedAtDescription(ins: seq<Signal>, s: Signal)
    requires !Described(ins) && s.Describes()
    ensures Described(ins + [s]) && Expected(ins + [s]) == Expected(ins) + ([s] + StillHeld(ins))
  {
    var all := ins + [s];
    FirstDescriptionSnoc(ins, s);
    assert all[..|ins|] == ins && all[|ins| + 1..] == [];
    var front := NonCandidates(ins) + [s] + Candidates(ins);
    assert front + [] == front;
  }

  lemma ExpectedBeforeDescription(ins: seq<Signal>, s: Signal)
    requires !Described(ins) && !s.Describes()
    ensures !Described(ins + [s])
    ensures Expected(ins + [s]) == Expected(ins) + if IsCandidate(s) then [] else [s]
    ensures StillHeld(ins + [s]) == StillHeld(ins) + if IsCandidate(s) then [s] else []
  {
    FirstDescriptionSnoc(ins, s);
    FilterAppend(ins, [s], IsCandidate);
    FilterAppend(ins, [s], NotCandidate);
    FilterOne(s, IsCandidate);
    FilterOne(s, NotCandidate);
  }

  /** Every store holds back only signals of its own connection. */
  ghost predicate OwnSignals(c: ConnState) {
    forall j :: j in c.stores ==> All(c.stores[j].pending, OfConnection(j))
  }

  /** A connection's store agrees with what its own arrivals call for. */
  ghost predicate Agrees(st: StoreState, delivered: seq<Signal>, ins: seq<Signal>) {
    delivered == Expected(ins) && st.pending == StillHeld(ins) && st.described == Described(ins)
  }

  lemma SendKeepsAgreement(st: StoreState, delivered: seq<Signal>, ins: seq<Signal>, s: Signal, now: int)
    requires Agrees(st, delivered, ins) && Routed(s)
    ensures Agrees(AfterSend(st, s, now), delivered + Sent(st, s), ins + [s])
  {
    if Described(ins) {
      ExpectedOnceDescribed(ins, s);
    } else if s.Describes() {
      ExpectedAtDescription(ins, s);
    } else {
      ExpectedBeforeDescription(ins, s);
      assert delivered + [] == delivered;
    }
  }

  lemma PassKeepsAgreement(st: StoreState, delivered: seq<Signal>, ins: seq<Signal>, s: Signal)
    requires Agrees(st, delivered, ins) && !Routed(s)
    ensures Agrees(st, delivered + [s], ins + [s])
  {
    if Described(ins) {
      ExpectedOnceDescribed(ins, s);
    } else {
      ExpectedBeforeDescription(ins, s);
      assert StillHeld(ins) + [] == StillHeld(ins);
    }
  }

  /** What receiving a signal hands on. */
  function Out(c: ConnState, a: Arrival): seq<Signal> {
    if Routed(a.signal) then Sent(StoreFor(c, a.signal.connectionID, a.at), a.signal) else [a.signal]
  }

  lemma ReceiveSendsOwn(c: ConnState, a: Arrival)
    requires OwnSignals(c)
    ensures OwnSignals(Receive(c, a.signal, a.at))
    ensures Receive(c, a.signal, a.at).delivered == c.delivered + Out(c, a)
    ensures forall i :: 0 <= i < |Out(c, a)| ==> Out(c, a)[i].connectionID == a.signal.connectionID
  {
    var st := StoreFor(c, a.signal.connectionID, a.at);
    assert forall i :: 0 <= i < |st.pending| ==> OfConnection(a.signal.connectionID)(st.pending[i]);
    var c' := Receive(c, a.signal, a.at);
    forall j | j in c'.stores ensures All(c'.stores[j].pending, OfConnection(j)) {}
  }

  lemma ReceiveKeepsAgreement(c: ConnState, ins: seq<Signal>, id: nat, a: Arrival)
    requires OwnSignals(c) && Agrees(StoreFor(c, id, 0), Only(c.delivered, id), ins)
    ensures var c' := Receive(c, a.signal, a.at);
      Agrees(StoreFor(c', id, 0), Only(c'.delivered, id), ins + if a.signal.connectionID == id then [a.signal] else [])
  {
    var s := a.signal;
    var out := Out(c, a);
    ReceiveSendsOwn(c, a);
    FilterAppend(c.delivered, out, OfConnection(id));
    if s.connectionID == id {
      FilterOfKept(out, OfConnection(id));
      if Routed(s) {
        SendKeepsAgreement(StoreFor(c, id, 0), Only(c.delivered, id), ins, s, a.at);
      } else {
        PassKeepsAgreement(StoreFor(c, id, 0), Only(c.delivered, id), ins, s);
      }
    } else {
      FilterOfNone(out, OfConnection(id));
      assert ins + [] == ins && Only(c.delivered, id) + [] == Only(c.delivered, id);
    }
  }

  /** However the signals of many connections interleave, each connection's reader sees exactly the
      expected sequence, and exactly the rest is held back. */
  lemma {:induction false} EachConnectionInOrder(arrivals: seq<Arrival>, id: nat)
    ensures OwnSignals(Received(arrivals))
    ensures Agrees(StoreFor(Received(arrivals), id, 0), Only(Received(arrivals).delivered, id), For(arrivals, id))
  {
    if arrivals != [] {
      var n := |arrivals| - 1;
      EachConnectionInOrder(arrivals[..n], id);
      ReceiveSendsOwn(Received(arrivals[..n]), arrivals[n]);
      ReceiveKeepsAgreement(Received(arrivals[..n]), For(arrivals[..n], id), id, arrivals[n]);
    }
  }

  lemma {:induction false} SplitsInTwo(ins: seq<Signal>)
    ensures multiset(Candidates(ins)) + multiset(NonCandidates(ins)) == multiset(ins)
  {
    if ins != [] {
      SplitsInTwo(ins[1..]);
      assert ins == [ins[0]] + ins[1..];
    }
  }

  /** The expected order only moves signals about. */
  lemma ExpectedIsAll(ins: seq<Signal>)
    ensures multiset(Expected(ins)) + multiset(StillHeld(ins)) == multiset(ins)
  {
    var p := FirstDescription(ins);
    SplitsInTwo(ins[..p]);
    if p < |ins| {
      assert ins == ins[..p] + [ins[p]] + ins[p + 1..];
    } else {
      assert ins[..p] == ins;
    }
  }

  /** Nothing is lost, repeated or made up: what was delivered and what is held back is what came. */
  lemma NothingLost(arrivals: seq<Arrival>, id: nat)
    ensures multiset(Only(Received(arrivals).delivered, id)) + multiset(StoreFor(Received(arrivals), id, 0).pending)
      == multiset(For(arrivals, id))
  {
    EachConnectionInOrder(arrivals, id);
    ExpectedIsAll(For(arrivals, id));
  }

  predicate IsDescription(s: Signal) {
    s.typ.Offer? || s.typ.Answer?
  }

  predicate CountsFor(s: Signal, id: nat) {
    s.connectionID == id && (IsCandidate(s) || IsDescription(s))
  }

  /** A connection has a store from its first candidate or description on, and it was last active when the last of
      these came. */
  lemma {:induction false} LastActivityIsLastSignal(arrivals: seq<Arrival>, id: nat) returns (last: nat)
    ensures id in Received(arrivals).stores <==>
      exists i :: 0 <= i < |arrivals| && CountsFor(arrivals[i].signal, id)
    ensures id in Received(arrivals).stores ==>
      && last < |arrivals| && CountsFor(arrivals[last].signal, id)
      && Received(arrivals).stores[id].lastActivity == arrivals[last].at
      && forall i :: last < i < |arrivals| ==> !CountsFor(arrivals[i].signal, id)
  {
    last := 0;
    if arrivals != [] {
      var n := |arrivals| - 1;
      last := LastActivityIsLastSignal(arrivals[..n], id);
      assert forall i :: 0 <= i < n ==> arrivals[..n][i] == arrivals[i];
      if CountsFor(arrivals[n].signal, id) {
        last := n;
      }
    }
  }

  /** No candidate reaches the reader before the connection's description. */
  lemma NoCandidateBeforeDescription(arrivals: seq<Arrival>, id: nat, i: nat)
    requires i < |Only(Received(arrivals).delivered, id)| && IsCandidate(Only(Received(arrivals).delivered, id)[i])
    ensures exists j :: 0 <= j < i && IsDescription(Only(Received(arrivals).delivered, id)[j])
  {
    var ins := For(arrivals, id);
    EachConnectionInOrder(arrivals, id);
    var p := FirstDescription(ins);
    var seen := Expected(ins);
    var early := NonCandidates(ins[..p]);
    assert p == |ins| ==> ins[..p] == ins;
    assert early <= seen;
    FilterLeavesOnlyKept(ins[..p], NotCandidate);
    forall j | 0 <= j < |early| ensures !IsCandidate(seen[j]) {
      assert seen[j] == early[j] && NotCandidate(early[j]);
    }
    assert seen[|early|] == ins[p] && IsDescription(seen[|early|]);
  }
}
