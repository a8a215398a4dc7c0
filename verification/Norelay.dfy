/** The broker object itself. Each method is a mutex-held region and does exactly one step of the
    protocol in module Broker. */
module Norelay {
  import opened GoStrings
  import opened Signaling
  import opened Broker
  import Sdp

  class BrokeredOffer {
    var offer: string
    var candidates: seq<string>
    var deadline: int
    var timer: Option<nat>
    var done: bool

    ghost const key: ConnectionKey
    ghost const id: nat
    ghost const acceptedAt: int
    ghost var armedAt: int
    ghost var arms: nat

    constructor (offer: string, deadline: int, ghost key: ConnectionKey, ghost id: nat, ghost now: int)
      ensures View() == Held(id, offer, [], deadline, now, now, 0)
      ensures timer == None && !done && this.key == key
    {
      this.offer, this.candidates, this.deadline, this.timer, this.done := offer, [], deadline, None, false;
      this.key, this.id, this.acceptedAt, this.armedAt, this.arms := key, id, now, now, 0;
    }

    /** Not forwarded or given up, with its own timer. */
    ghost predicate Waits(k: ConnectionKey)
      reads this
    {
      !done && timer == Some(id) && key == k
    }

    ghost function View(): Held
      reads this
    {
      Held(id, offer, candidates, deadline, acceptedAt, armedAt, arms)
    }
  }

  /** What forward takes away from the lock. */
  datatype Job = Job(key: ConnectionKey, sdp: string, candidates: seq<string>)

  /** What taking an offer makes of the protocol's state. */
  function Taken(st: State, key: ConnectionKey, data: string): State {
    Armed(st.(inFlight := st.inFlight + 1, keys := st.keys + [key]), key,
          Held(|st.keys|, data, [], Deadline(data, st.now), st.now, st.now, 0))
  }

  predicate SameBut(st: State, st': State) {
    && st'.now == st.now && st'.firings == st.firings && st'.running == st.running
    && st'.forwarded == st.forwarded && st'.abandoned == st.abandoned
  }

  lemma TakenIs(st: State, st': State, key: ConnectionKey, data: string)
    requires SameBut(st, st') && st'.inFlight == st.inFlight + 1 && st'.keys == st.keys + [key]
    requires st'.pending == st.pending[key := Held(|st.keys|, data, [], Deadline(data, st.now), st.now, st.now, 1)]
    requires st'.timers == st.timers[|st.keys| := Alarm(key, AlarmTime(Deadline(data, st.now), st.now))]
    ensures st' == Taken(st, key, data)
  {}

  /** What keeping a candidate makes of it. */
  function Kept(st: State, key: ConnectionKey, data: string): State
    requires key in st.pending
  {
    Armed(st, key, st.pending[key].(candidates := st.pending[key].candidates + [data]))
  }

  lemma KeptIs(st: State, st': State, key: ConnectionKey, data: string)
    requires key in st.pending && SameBut(st, st') && st'.inFlight == st.inFlight && st'.keys == st.keys
    requires var h := st.pending[key];
      && st'.pending == st.pending[key := h.(candidates := h.candidates + [data], armedAt := st.now,
                                             arms := h.arms + 1)]
      && st'.timers == st.timers[h.id := Alarm(key, AlarmTime(h.deadline, st.now))]
    ensures st' == Kept(st, key, data)
  {}

  class SignalBroker {
    var pending: map<ConnectionKey, BrokeredOffer>
    var inFlight: int

    /** The Go runtime's timers: those that are running, and how many were ever made. */
    var timers: map<nat, Alarm>
    var made: nat

    ghost var running: set<nat>
    ghost var keys: seq<ConnectionKey>
    ghost var forwarded: multiset<nat>
    ghost var abandoned: multiset<nat>

    constructor ()
      ensures Valid() && State(0, multiset{}) == NEW_BROKER
    {
      pending, inFlight, timers, made := map[], 0, map[], 0;
      running, keys, forwarded, abandoned := {}, [], multiset{}, multiset{};
      new;
      assert Views() == map[];
    }

    /** A pending offer is one object, has its own timer and is never done. */
    ghost predicate Valid()
      reads this, pending.Values
    {
      && made == |keys|
      && (forall k :: k in pending ==> pending[k].Waits(k))
    }

    ghost function Views(): map<ConnectionKey, Held>
      reads this, pending.Values
    {
      map k | k in pending :: pending[k].View()
    }

    ghost function State(now: int, firings: multiset<Firing>): State
      reads this, pending.Values
    {
      Broker.State(now, Views(), inFlight, timers, firings, running, keys, forwarded, abandoned)
    }

    twostate lemma OneOfferChanged(key: ConnectionKey)
      requires key in pending && forall j :: j != key ==> (j in pending <==> j in old(pending))
      requires forall j :: j in pending && j != key ==> pending[j] == old(pending)[j]
      requires forall j :: j in old(pending) && j != key ==> old(pending)[j].View() == old(pending[j].View())
      ensures Views() == old(Views())[key := pending[key].View()]
    {}

    twostate lemma OneOfferRemoved(key: ConnectionKey)
      requires pending == Without(old(pending), key)
      requires forall j :: j in old(pending) && j != key ==> old(pending)[j].View() == old(pending[j].View())
      ensures Views() == Without(old(Views()), key)
    {}

    /** NotifySignal: every branch but the default is one locked region. */
    method NotifySignal(signal: Signal, now: int, ghost firings: multiset<Firing>) returns (handled: bool)
      requires Valid()
      modifies this, pending.Values
      ensures Valid()
      ensures State(now, firings) == Notify(old(State(now, firings)), signal)
      ensures handled == Handled(old(State(now, firings)), signal)
    {
      match signal.typ
      case Offer => handled := NotifyOffer(signal, now, firings);
      case Candidate => NotifyCandidate(signal, now, firings); handled := true;
      case Error => NotifyError(signal, now, firings); handled := true;
      case _ => handled := false;
    }

    method NotifyOffer(signal: Signal, now: int, ghost firings: multiset<Firing>) returns (handled: bool)
      requires Valid() && signal.typ.Offer?
      modifies this
      ensures Valid()
      ensures State(now, firings) == Notify(old(State(now, firings)), signal)
      ensures handled == AcceptsOffer(old(State(now, firings)), signal)
    {
      var key := signal.Key();
      if key in pending {
        return false;
      }
      if ByteLength(signal.data) > MAX_OFFER_BYTES || inFlight >= MAX_IN_FLIGHT {
        return false;
      }
      Accept(key, signal.data, now, firings);
      return true;
    }

    /** The rest of the offer branch. */
    method Accept(key: ConnectionKey, data: string, now: int, ghost firings: multiset<Firing>)
      requires Valid() && key !in pending
      modifies this
      ensures Valid()
      ensures State(now, firings) == Taken(old(State(now, firings)), key, data)
    {
      hide Taken, Deadline, AlarmTime;
      ghost var st := State(now, firings);
      var offer := Put(key, data, now);
      Arm(key, offer, now);
      OneOfferChanged(key);
      TakenIs(st, State(now, firings), key, data);
    }

    /** The same up to where the timer is set. */
    method Put(key: ConnectionKey, data: string, now: int) returns (offer: BrokeredOffer)
      modifies this`pending, this`inFlight, this`keys
      ensures fresh(offer) && offer.timer == None && !offer.done && offer.key == key
      ensures offer.View() == Held(|old(keys)|, data, [], Deadline(data, now), now, now, 0)
      ensures pending == old(pending)[key := offer] && inFlight == old(inFlight) + 1 && keys == old(keys) + [key]
    {
      offer := NewOffer(data, now, key, |keys|);
      pending := pending[key := offer];
      inFlight := inFlight + 1;
      keys := keys + [key];
    }

    /** An offer that carries its candidates already has nothing to wait for. */
    static method NewOffer(data: string, now: int, ghost key: ConnectionKey, ghost id: nat)
      returns (offer: BrokeredOffer)
      ensures fresh(offer) && offer.timer == None && !offer.done && offer.key == key
      ensures offer.View() == Held(id, data, [], Deadline(data, now), now, now, 0)
    {
      offer := new BrokeredOffer(data, now + MAX_GATHER, key, id, now);
      if Sdp.HasInlineCandidate(data) {
        offer.deadline := now;
      }
    }

    method NotifyCandidate(signal: Signal, now: int, ghost firings: multiset<Firing>)
      requires Valid() && signal.typ.Candidate?
      modifies this, pending.Values
      ensures Valid()
      ensures State(now, firings) == Notify(old(State(now, firings)), signal)
    {
      var key := signal.Key();
      if key !in pending {
        return;
      }
      var offer := pending[key];
      var relay := Sdp.IsRelayCandidate(signal.data);
      assert Views()[key] == offer.View();
      if !offer.done && |offer.candidates| < MAX_CANDIDATES
         && ByteLength(signal.data) <= MAX_CANDIDATE_BYTES && !relay {
        assert KeepsCandidate(State(now, firings), signal);
        Keep(key, signal.data, now, firings);
      }
    }

    /** The rest of the candidate branch. */
    method Keep(key: ConnectionKey, data: string, now: int, ghost firings: multiset<Firing>)
      requires Valid() && key in pending
      modifies this`timers, this`made, pending[key]
      ensures Valid()
      ensures State(now, firings) == Kept(old(State(now, firings)), key, data)
    {
      hide Kept, AlarmTime;
      ghost var st := State(now, firings);
      var offer := pending[key];
      Append(key, offer, data, now);
      OneOfferChanged(key);
      KeptIs(st, State(now, firings), key, data);
    }

    method Append(key: ConnectionKey, offer: BrokeredOffer, data: string, now: int)
      requires offer.Waits(key)
      modifies this`timers, this`made, offer
      ensures offer.Waits(key) && made == old(made)
      ensures timers == old(timers)[offer.id := Alarm(key, AlarmTime(offer.deadline, now))]
      ensures offer.View() == (var h := old(offer.View());
        h.(candidates := h.candidates + [data], armedAt := now, arms := h.arms + 1))
    {
      offer.candidates := offer.candidates + [data];
      Arm(key, offer, now);
    }

    method NotifyError(signal: Signal, now: int, ghost firings: multiset<Firing>)
      requires Valid() && signal.typ.Error?
      modifies this, pending.Values
      ensures Valid()
      ensures State(now, firings) == Notify(old(State(now, firings)), signal)
    {
      var key := signal.Key();
      if key in pending && !pending[key].done {
        var offer := pending[key];
        offer.done := true;
        if offer.timer.Some? {
          timers := Without(timers, offer.timer.value);
        }
        pending := Without(pending, key);
        inFlight := inFlight - 1;
        abandoned := abandoned + multiset{offer.id};
        OneOfferRemoved(key);
      }
    }

    method Arm(key: ConnectionKey, offer: BrokeredOffer, now: int)
      requires offer.timer == None ==> offer.id == made
      requires offer.timer.Some? ==> offer.timer == Some(offer.id)
      modifies this`timers, this`made, offer`timer, offer`armedAt, offer`arms
      ensures timers == old(timers)[offer.id := Alarm(key, AlarmTime(offer.deadline, now))]
      ensures made == old(made) + if old(offer.timer) == None then 1 else 0
      ensures offer.timer == Some(offer.id) && offer.armedAt == now && offer.arms == old(offer.arms) + 1
    {
      var wait := CANDIDATE_QUIET;
      var until := offer.deadline - now;
      if until < wait {
        wait := until;
      }
      if wait < 0 {
        wait := 0;
      }
      offer.armedAt, offer.arms := now, offer.arms + 1;
      if offer.timer == None {
        offer.timer := Some(made);
        timers, made := timers[made := Alarm(key, now + wait)], made + 1;
        return;
      }
      timers := timers[offer.timer.value := Alarm(key, now + wait)];
    }

    /** The first locked part of forward. */
    method BeginForward(key: ConnectionKey, ghost f: Firing, ghost now: int, ghost firings: multiset<Firing>)
      returns (job: Option<Job>)
      requires Valid() && f in firings && f.key == key
      modifies this, pending.Values
      ensures Valid()
      ensures State(now, firings - multiset{f}) == Begun(old(State(now, firings)), f)
      ensures job == if key !in old(pending) then None
        else Some(Job(key, old(Views())[key].sdp, old(Views())[key].candidates))
    {
      if key !in pending || pending[key].done {
        return None;
      }
      var offer := pending[key];
      offer.done := true;
      pending := Without(pending, key);
      running, forwarded := running + {offer.id}, forwarded + multiset{offer.id};
      OneOfferRemoved(key);
      return Some(Job(key, offer.offer, offer.candidates));
    }

    /** The deferred locked part of forward. */
    method EndForward(ghost id: nat, ghost now: int, ghost firings: multiset<Firing>)
      requires Valid() && id in running
      modifies this`inFlight, this`running
      ensures Valid() && State(now, firings) == Next(old(State(now, firings)), End(id))
    {
      inFlight := inFlight - 1;
      running := running - {id};
    }
  }
}
