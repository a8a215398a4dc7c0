/** From the signals as they arrive to the offer as it is posted: the order in which an offer and its
    candidates arrive makes no difference to the bundle. */
module JoinPath {
  import opened GoStrings
  import opened Signaling
  import opened PendingSignals
  import opened Broker
  import Sdp

  /** Steps of the broker in which no timer goes off and no forward begins: signals arrive, time passes
      and forwards begun earlier end. */
  predicate Waits(steps: seq<Step>) {
    forall i :: 0 <= i < |steps| ==> steps[i].Incoming? || steps[i].Tick? || steps[i].End?
  }

  /** The broker after such steps. */
  function Fed(st: State, steps: seq<Step>): State {
    if steps == [] then st else Do(Fed(st, steps[..|steps| - 1]), steps[|steps| - 1])
  }

  /** The signals that arrive in them. */
  function Signals(steps: seq<Step>): seq<Signal> {
    if steps == [] then []
    else
      var n := |steps| - 1;
      Signals(steps[..n]) + if steps[n].Incoming? then [steps[n].signal] else []
  }

  function WithKey(key: ConnectionKey): Signal -> bool {
    (s: Signal) => s.Key() == key
  }

  function Data(s: Signal): string {
    s.data
  }

  function FirstOf<T>(ss: seq<T>, n: nat): seq<T> {
    if |ss| <= n then ss else ss[..n]
  }

  /** The candidates an offer goes out with. */
  function Bundle(candidates: seq<Signal>): seq<string> {
    FirstOf(Filter(Map(candidates, Data), Eligible), MAX_CANDIDATES)
  }

  lemma BundleSnoc(candidates: seq<Signal>, s: Signal)
    ensures Bundle(candidates + [s]) ==
      if |Bundle(candidates)| < MAX_CANDIDATES && Eligible(s.data) then Bundle(candidates) + [s.data]
      else Bundle(candidates)
  {
    MapAppend(candidates, [s], Data);
    assert [s][1..] == [] && Map([s], Data) == [s.data];
    var es := Filter(Map(candidates, Data), Eligible);
    FilterAppend(Map(candidates, Data), [s.data], Eligible);
    FilterOne(s.data, Eligible);
    if |es| >= MAX_CANDIDATES {
      assert (es + [s.data])[..MAX_CANDIDATES] == es[..MAX_CANDIDATES];
      assert es[..MAX_CANDIDATES] == FirstOf(es, MAX_CANDIDATES);
    }
  }

  /** What the broker holds for a key, given the signals it has seen for that key. */
  ghost predicate Holds(st: State, key: ConnectionKey, ins: seq<Signal>) {
    if ins == [] then key !in st.pending
    else key in st.pending ==>
      st.pending[key].sdp == ins[0].data && st.pending[key].candidates == Bundle(ins[1..])
  }

  /** An offer first, then candidates only. */
  predicate OfferThenCandidates(ins: seq<Signal>) {
    forall i :: 0 <= i < |ins| ==> if i == 0 then ins[i].typ.Offer? else ins[i].typ.Candidate?
  }

  lemma NotifyKeepsHolds(st: State, key: ConnectionKey, ins: seq<Signal>, s: Signal)
    requires Holds(st, key, ins)
    requires s.Key() == key ==> OfferThenCandidates(ins + [s])
    ensures Holds(Notify(st, s), key, if s.Key() == key then ins + [s] else ins)
  {
    if s.Key() == key {
      var all := ins + [s];
      assert all[|ins|] == s;
      if ins == [] {
        assert s.typ.Offer? && all[1..] == [];
      } else {
        assert s.typ.Candidate? && all[1..] == ins[1..] + [s];
        BundleSnoc(ins[1..], s);
      }
    }
  }

  lemma StepKeepsHolds(st: State, key: ConnectionKey, ins: seq<Signal>, step: Step)
    requires Holds(st, key, ins) && (step.Incoming? || step.Tick? || step.End?)
    requires step.Incoming? && step.signal.Key() == key ==> OfferThenCandidates(ins + [step.signal])
    ensures Holds(Do(st, step), key, if step.Incoming? && step.signal.Key() == key then ins + [step.signal] else ins)
  {
    if step.Incoming? {
      NotifyKeepsHolds(st, key, ins, step.signal);
    }
  }

  /** The signals of a key, with those of one more step. */
  lemma SignalsSnoc(steps: seq<Step>, key: ConnectionKey)
    requires steps != []
    ensures var n := |steps| - 1; var ins := Filter(Signals(steps[..n]), WithKey(key)); var step := steps[n];
      Filter(Signals(steps), WithKey(key)) ==
      (if step.Incoming? && step.signal.Key() == key then ins + [step.signal] else ins)
  {
    var n := |steps| - 1;
    var ins := Filter(Signals(steps[..n]), WithKey(key));
    assert ins + [] == ins;
    if steps[n].Incoming? {
      FilterAppend(Signals(steps[..n]), [steps[n].signal], WithKey(key));
      FilterOne(steps[n].signal, WithKey(key));
    } else {
      assert Signals(steps[..n]) + [] == Signals(steps[..n]);
    }
  }

  lemma {:induction false} FedHolds(st: State, key: ConnectionKey, steps: seq<Step>)
    requires key !in st.pending && Waits(steps) && OfferThenCandidates(Filter(Signals(steps), WithKey(key)))
    ensures Holds(Fed(st, steps), key, Filter(Signals(steps), WithKey(key)))
  {
    if steps != [] {
      var n := |steps| - 1;
      var ins := Filter(Signals(steps[..n]), WithKey(key));
      SignalsSnoc(steps, key);
      if steps[n].Incoming? { OfferThenCandidatesFront(ins, steps[n].signal); }
      FedHolds(st, key, steps[..n]);
      StepKeepsHolds(Fed(st, steps[..n]), key, ins, steps[n]);
    }
  }

  // ---------------------------------------------------------------------------------------------
  // Whether the broker takes the offer

  function OfferOfOther(key: ConnectionKey): Signal -> bool {
    (s: Signal) => s.typ.Offer? && s.Key() != key
  }

  function OtherOffers(steps: seq<Step>, key: ConnectionKey): nat {
    |Filter(Signals(steps), OfferOfOther(key))|
  }

  /** There is room for the offer even if every other offer among the steps is taken. */
  predicate HasRoom(st: State, steps: seq<Step>, key: ConnectionKey) {
    st.inFlight + OtherOffers(steps, key) < MAX_IN_FLIGHT
  }

  lemma OtherOffersSnoc(steps: seq<Step>, key: ConnectionKey)
    requires steps != []
    ensures var n := |steps| - 1; var step := steps[n];
      OtherOffers(steps, key) == OtherOffers(steps[..n], key)
        + if step.Incoming? && step.signal.typ.Offer? && step.signal.Key() != key then 1 else 0
  {
    var n := |steps| - 1;
    if steps[n].Incoming? {
      FilterAppend(Signals(steps[..n]), [steps[n].signal], OfferOfOther(key));
      FilterOne(steps[n].signal, OfferOfOther(key));
    } else {
      assert Signals(steps[..n]) + [] == Signals(steps[..n]);
    }
  }

  /** The key's offer is pending, and no more is in flight than it and the other offers since. */
  ghost predicate Taken(st: State, st': State, key: ConnectionKey, others: nat, ins: seq<Signal>) {
    && st'.inFlight <= st.inFlight + others + (if ins == [] then 0 else 1)
    && (ins == [] <==> key !in st'.pending)
  }

  lemma StepKeepsTaken(st: State, st': State, key: ConnectionKey, others: nat, ins: seq<Signal>, step: Step)
    requires Taken(st, st', key, others, ins) && (step.Incoming? || step.Tick? || step.End?)
    requires step.Incoming? && step.signal.Key() == key ==> OfferThenCandidates(ins + [step.signal])
    requires step.Incoming? && step.signal.Key() == key && step.signal.typ.Offer? ==>
      ByteLength(step.signal.data) <= MAX_OFFER_BYTES
    requires st.inFlight + others < MAX_IN_FLIGHT
    ensures var more := if step.Incoming? && step.signal.typ.Offer? && step.signal.Key() != key then 1 else 0;
      Taken(st, Do(st', step), key, others + more,
            if step.Incoming? && step.signal.Key() == key then ins + [step.signal] else ins)
  {
    if step.Incoming? && step.signal.Key() == key {
      assert (ins + [step.signal])[|ins|] == step.signal;
    }
  }

  lemma {:induction false} FedTakes(st: State, key: ConnectionKey, steps: seq<Step>)
    requires key !in st.pending && Waits(steps) && OfferThenCandidates(Filter(Signals(steps), WithKey(key)))
    requires var ins := Filter(Signals(steps), WithKey(key)); ins != [] ==> ByteLength(ins[0].data) <= MAX_OFFER_BYTES
    requires HasRoom(st, steps, key)
    ensures Taken(st, Fed(st, steps), key, OtherOffers(steps, key), Filter(Signals(steps), WithKey(key)))
  {
    if steps != [] {
      var n := |steps| - 1;
      var ins := Filter(Signals(steps[..n]), WithKey(key));
      SignalsSnoc(steps, key);
      OtherOffersSnoc(steps, key);
      if steps[n].Incoming? {
        OfferThenCandidatesFront(ins, steps[n].signal);
        assert ins != [] ==> (ins + [steps[n].signal])[0] == ins[0];
        assert ins + [steps[n].signal] != [] && (ins + [steps[n].signal])[|ins|] == steps[n].signal;
      }
      FedTakes(st, key, steps[..n]);
      StepKeepsTaken(st, Fed(st, steps[..n]), key, OtherOffers(steps[..n], key), ins, steps[n]);
    }
  }

  lemma OfferThenCandidatesFront(ins: seq<Signal>, s: Signal)
    ensures OfferThenCandidates(ins + [s]) ==> OfferThenCandidates(ins)
  {
    assert forall i :: 0 <= i < |ins| ==> (ins + [s])[i] == ins[i];
  }

  lemma {:induction false} FilterFiner<T>(ss: seq<T>, p: T -> bool, q: T -> bool)
    requires forall i :: 0 <= i < |ss| && q(ss[i]) ==> p(ss[i])
    requires All(Filter(ss, p), q)
    ensures Filter(ss, q) == Filter(ss, p)
  {
    if ss != [] {
      var rest := Filter(ss[1..], p);
      if p(ss[0]) {
        assert Filter(ss, p) == [ss[0]] + rest;
        assert q(Filter(ss, p)[0]);
        assert forall i :: 0 <= i < |rest| ==> rest[i] == Filter(ss, p)[i + 1];
      }
      FilterFiner(ss[1..], p, q);
    }
  }

  lemma FilterAround<T>(a: seq<T>, x: T, b: seq<T>, keep: T -> bool)
    ensures Filter(a + [x] + b, keep) == Filter(a, keep) + (if keep(x) then [x] else []) + Filter(b, keep)
  {
    FilterAppend(a + [x], b, keep);
    FilterAppend(a, [x], keep);
    FilterOne(x, keep);
  }

  /** One offer and otherwise candidates come out with the offer in front. */
  lemma OfferComesFirst(ins: seq<Signal>, offer: Signal)
    requires NonCandidates(ins) == [offer] && offer.typ.Offer?
    ensures Expected(ins) == [offer] + Candidates(ins)
  {
    var p := FirstDescription(ins);
    if p == |ins| {
      NoDescriptionInside(ins, offer);
    } else {
      var a, x, b := ins[..p], ins[p], ins[p + 1..];
      assert ins == a + [x] + b;
      FilterAround(a, x, b, NotCandidate);
      FilterAround(a, x, b, IsCandidate);
      OnlyInTheMiddle(NonCandidates(a), x, NonCandidates(b), offer);
      AllCandidates(b);
      OfferInFront([], offer, Candidates(a), b);
    }
  }

  lemma OnlyInTheMiddle(a: seq<Signal>, x: Signal, b: seq<Signal>, offer: Signal)
    requires a + [x] + b == [offer]
    ensures a == [] && b == [] && x == offer
  {
    assert |a| + 1 + |b| == |a + [x] + b| == 1;
    assert (a + [x] + b)[|a|] == x;
  }

  lemma OfferInFront(none: seq<Signal>, offer: Signal, a: seq<Signal>, b: seq<Signal>)
    requires none == []
    ensures none + [offer] + a + b == [offer] + (a + none + b)
  {
    assert none + [offer] == [offer] && a + none == a;
    assert ([offer] + a) + b == [offer] + (a + b);
  }

  lemma {:induction false} NoDescriptionInside(ins: seq<Signal>, offer: Signal)
    requires offer.Describes() && NonCandidates(ins) != [] && NonCandidates(ins)[0] == offer
    ensures exists i :: 0 <= i < |ins| && ins[i].Describes()
  {
    if NotCandidate(ins[0]) {
      assert ins[0] == offer;
    } else {
      NoDescriptionInside(ins[1..], offer);
      var i :| 0 <= i < |ins[1..]| && ins[1..][i].Describes();
      assert ins[i + 1].Describes();
    }
  }

  lemma {:induction false} AllCandidates(ins: seq<Signal>)
    requires NonCandidates(ins) == []
    ensures Candidates(ins) == ins
  {
    if ins != [] { AllCandidates(ins[1..]); }
  }

  /** Among the arrivals, this connection is one peer's and consists of one offer and candidates. */
  ghost predicate OneOffer(arrivals: seq<Arrival>, key: ConnectionKey, offer: Signal, candidates: seq<Signal>) {
    var ins := For(arrivals, key.connectionID);
    && All(ins, WithKey(key))
    && NonCandidates(ins) == [offer] && offer.typ.Offer?
    && Candidates(ins) == candidates
  }

  lemma {:induction false} ExpectedKeepsKey(ins: seq<Signal>, key: ConnectionKey)
    requires All(ins, WithKey(key))
    ensures All(Candidates(ins), WithKey(key))
  {
    if ins != [] {
      assert forall i :: 0 <= i < |ins[1..]| ==> ins[1..][i] == ins[i + 1];
      assert WithKey(key)(ins[0]);
      ExpectedKeepsKey(ins[1..], key);
    }
  }

  /** Wherever the offer arrived among its candidates, and whatever other connections sent in between,
      the broker gets the offer first and then its candidates in their order. */
  lemma DeliveredOfferFirst(arrivals: seq<Arrival>, key: ConnectionKey, offer: Signal, candidates: seq<Signal>)
    requires OneOffer(arrivals, key, offer, candidates)
    ensures Filter(Received(arrivals).delivered, WithKey(key)) == [offer] + candidates
    ensures OfferThenCandidates([offer] + candidates)
  {
    var ins := For(arrivals, key.connectionID);
    var delivered := Received(arrivals).delivered;
    EachConnectionInOrder(arrivals, key.connectionID);
    OfferComesFirst(ins, offer);
    ExpectedKeepsKey(ins, key);
    var out := [offer] + candidates;
    OfferHasKey(ins, offer, key);
    forall i | 0 <= i < |out| ensures WithKey(key)(out[i]) {
      if i > 0 { assert out[i] == candidates[i - 1]; }
    }
    FilterFiner(delivered, OfConnection(key.connectionID), WithKey(key));
    FilterLeavesOnlyKept(ins, IsCandidate);
    forall i | 0 <= i < |out| ensures if i == 0 then out[i].typ.Offer? else out[i].typ.Candidate? {
      if i > 0 { assert out[i] == candidates[i - 1] && IsCandidate(candidates[i - 1]); }
    }
  }

  /** So, time passing and earlier forwards ending in between: an offer within the size limit is taken if
      there is room for it, and whenever it is taken it is held with the first 32 eligible candidates in
      their order of arrival. */
  lemma BundleOfArrivals(arrivals: seq<Arrival>, key: ConnectionKey, offer: Signal, candidates: seq<Signal>,
                         st: State, steps: seq<Step>)
    requires OneOffer(arrivals, key, offer, candidates) && key !in st.pending
    requires Waits(steps) && Signals(steps) == Received(arrivals).delivered
    ensures var after := Fed(st, steps);
      && (ByteLength(offer.data) <= MAX_OFFER_BYTES && HasRoom(st, steps, key) ==> key in after.pending)
      && (key in after.pending ==>
            after.pending[key].sdp == offer.data && after.pending[key].candidates == Bundle(candidates))
  {
    DeliveredOfferFirst(arrivals, key, offer, candidates);
    FedHolds(st, key, steps);
    assert ([offer] + candidates)[1..] == candidates;
    if ByteLength(offer.data) <= MAX_OFFER_BYTES && HasRoom(st, steps, key) {
      FedTakes(st, key, steps);
    }
  }

  lemma {:induction false} OfferHasKey(ins: seq<Signal>, offer: Signal, key: ConnectionKey)
    requires All(ins, WithKey(key)) && NonCandidates(ins) == [offer]
    ensures WithKey(key)(offer)
  {
    assert WithKey(key)(ins[0]);
    if IsCandidate(ins[0]) {
      assert forall i :: 0 <= i < |ins[1..]| ==> ins[1..][i] == ins[i + 1];
      OfferHasKey(ins[1..], offer, key);
    } else {
      assert NonCandidates(ins)[0] == ins[0];
    }
  }

  /** Two ways of arriving with the same candidate order are posted as the same text, and with room for
      the offer they both are. */
  lemma SamePostedOffer(one: seq<Arrival>, two: seq<Arrival>, key: ConnectionKey, offer: Signal,
                        candidates: seq<Signal>, st1: State, st2: State, steps1: seq<Step>, steps2: seq<Step>)
    requires OneOffer(one, key, offer, candidates) && OneOffer(two, key, offer, candidates)
    requires key !in st1.pending && key !in st2.pending && Waits(steps1) && Waits(steps2)
    requires Signals(steps1) == Received(one).delivered && Signals(steps2) == Received(two).delivered
    ensures ByteLength(offer.data) <= MAX_OFFER_BYTES && HasRoom(st1, steps1, key) && HasRoom(st2, steps2, key) ==>
      key in Fed(st1, steps1).pending && key in Fed(st2, steps2).pending
    ensures key in Fed(st1, steps1).pending && key in Fed(st2, steps2).pending ==>
      (var a, b := Fed(st1, steps1).pending[key], Fed(st2, steps2).pending[key];
       Sdp.Rewritten(a.sdp, a.candidates) == Sdp.Rewritten(b.sdp, b.candidates))
  {
    BundleOfArrivals(one, key, offer, candidates, st1, steps1);
    BundleOfArrivals(two, key, offer, candidates, st2, steps2);
  }
}
