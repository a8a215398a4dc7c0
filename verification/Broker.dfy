/** The signaling broker as a protocol: what each mutex-held step does, and what every interleaving
    of signals, timer firings and finishing forwards keeps. Times are in milliseconds. */
module Broker {
  import opened GoStrings
  import opened Signaling
  import Sdp

  const CANDIDATE_QUIET := 150
  const MAX_GATHER := 2000
  const MAX_IN_FLIGHT := 32
  const MAX_OFFER_BYTES := 65536
  const MAX_CANDIDATES := 32
  const MAX_CANDIDATE_BYTES := 1024

  /** An offer held while candidates trickle in. id, acceptedAt, armedAt and arms are history: its
      place in the order of acceptance, when it was accepted and last armed, and how often armed. */
  datatype Held = Held(id: nat, sdp: string, candidates: seq<string>, deadline: int,
                       acceptedAt: int, armedAt: int, arms: nat)
  {
    /** When its timer was last set to go off. */
    function Due(): int {
      if deadline < armedAt + CANDIDATE_QUIET then deadline else armedAt + CANDIDATE_QUIET
    }
  }

  /** A running timer. Its callback knows the key only, not the offer. */
  datatype Alarm = Alarm(key: ConnectionKey, when: int)

  /** A timer callback that has started but does not hold the lock yet; arms is what the offer's
      count was when the timer went off, 0 if the offer was already gone. */
  datatype Firing = Firing(key: ConnectionKey, id: nat, arms: nat)

  /** keys, forwarded and abandoned are history: the key of every offer accepted so far, by id, and
      which offers were handed to the backend or given up. An offer has one timer, which shares its
      id. */
  datatype State = State(
    now: int,
    pending: map<ConnectionKey, Held>,
    inFlight: int,
    timers: map<nat, Alarm>,
    firings: multiset<Firing>,
    running: set<nat>,
    keys: seq<ConnectionKey>,
    forwarded: multiset<nat>,
    abandoned: multiset<nat>)

  const NEW_BROKER := State(0, map[], 0, map[], multiset{}, {}, [], multiset{}, multiset{})

  // ---------------------------------------------------------------------------------------------
  // Steps

  /** time.AfterFunc or Reset at now, never past the deadline and never in the past. */
  function AlarmTime(deadline: int, now: int): int {
    var wait := if deadline - now < CANDIDATE_QUIET then deadline - now else CANDIDATE_QUIET;
    now + if wait < 0 then 0 else wait
  }

  /** Put the offer back with its timer set anew. */
  function Armed(st: State, key: ConnectionKey, h: Held): State {
    st.(pending := st.pending[key := h.(armedAt := st.now, arms := h.arms + 1)],
        timers := st.timers[h.id := Alarm(key, AlarmTime(h.deadline, st.now))])
  }

  predicate AcceptsOffer(st: State, s: Signal) {
    s.Key() !in st.pending && ByteLength(s.data) <= MAX_OFFER_BYTES && st.inFlight < MAX_IN_FLIGHT
  }

  predicate Eligible(candidate: string) {
    ByteLength(candidate) <= MAX_CANDIDATE_BYTES && !Sdp.RelayCandidate(candidate)
  }

  predicate KeepsCandidate(st: State, s: Signal) {
    s.Key() in st.pending && |st.pending[s.Key()].candidates| < MAX_CANDIDATES && Eligible(s.data)
  }

  function Deadline(sdp: string, now: int): int {
    if Sdp.HasInlineCandidate(sdp) then now else now + MAX_GATHER
  }

  function Without<K, V>(m: map<K, V>, k: K): map<K, V> {
    map x | x in m && x != k :: m[x]
  }

  /** NotifySignal. */
  function Notify(st: State, s: Signal): State {
    var key := s.Key();
    match s.typ
    case Offer =>
      if !AcceptsOffer(st, s) then st
      else Armed(st.(inFlight := st.inFlight + 1, keys := st.keys + [key]), key,
                 Held(|st.keys|, s.data, [], Deadline(s.data, st.now), st.now, st.now, 0))
    case Candidate =>
      if !KeepsCandidate(st, s) then st
      else Armed(st, key, st.pending[key].(candidates := st.pending[key].candidates + [s.data]))
    case Error =>
      if key !in st.pending then st
      else st.(pending := Without(st.pending, key), timers := Without(st.timers, st.pending[key].id),
               inFlight := st.inFlight - 1, abandoned := st.abandoned + multiset{st.pending[key].id})
    case _ => st
  }

  /** What NotifySignal returns. */
  predicate Handled(st: State, s: Signal) {
    match s.typ
    case Offer => AcceptsOffer(st, s)
    case Candidate => true
    case Error => true
    case _ => false
  }

  datatype Step =
    | Incoming(signal: Signal)   // NotifySignal
    | TimerFires(id: nat)        // the runtime starts a timer's callback
    | Begin(firing: Firing)      // the first locked part of forward
    | End(id: nat)               // the deferred locked part of forward
    | Tick(ms: nat)

  predicate Enabled(st: State, step: Step) {
    match step
    case Incoming(_) => true
    case TimerFires(id) => id in st.timers && st.timers[id].when <= st.now
    case Begin(f) => f in st.firings
    case End(id) => id in st.running
    case Tick(_) => true
  }

  function Fired(st: State, id: nat): Firing
    requires id in st.timers
  {
    var key := st.timers[id].key;
    Firing(key, id, if key in st.pending && st.pending[key].id == id then st.pending[key].arms else 0)
  }

  function Begun(st: State, f: Firing): State {
    var st' := st.(firings := st.firings - multiset{f});
    if f.key !in st.pending then st'
    else
      var id := st.pending[f.key].id;
      st'.(pending := Without(st.pending, f.key), running := st.running + {id},
           forwarded := st.forwarded + multiset{id})
  }

  function Next(st: State, step: Step): State
    requires Enabled(st, step)
  {
    match step
    case Incoming(s) => Notify(st, s)
    case TimerFires(id) =>
      st.(timers := Without(st.timers, id), firings := st.firings + multiset{Fired(st, id)})
    case Begin(f) => Begun(st, f)
    case End(id) => st.(running := st.running - {id}, inFlight := st.inFlight - 1)
    case Tick(ms) => st.(now := st.now + ms)
  }

  // ---------------------------------------------------------------------------------------------
  // Runs

  /** A step that is not possible now changes nothing, so every sequence of steps is a run. */
  function Do(st: State, step: Step): State {
    if Enabled(st, step) then Next(st, step) else st
  }

  function After(steps: seq<Step>): State {
    if steps == [] then NEW_BROKER else Do(After(steps[..|steps| - 1]), steps[|steps| - 1])
  }

  // ---------------------------------------------------------------------------------------------
  // Every accepted offer has one fate

  predicate Pends(st: State, id: nat) {
    exists key :: key in st.pending && st.pending[key].id == id
  }

  /** How often an offer is pending, was forwarded or was abandoned, all together. */
  function Fates(st: State, id: nat): nat {
    (if Pends(st, id) then 1 else 0) + st.forwarded[id] + st.abandoned[id]
  }

  ghost predicate OneFate(st: State) {
    && (forall a, b :: a in st.pending && b in st.pending && st.pending[a].id == st.pending[b].id ==> a == b)
    && (forall id: nat :: Fates(st, id) == if id < |st.keys| then 1 else 0)
  }

  ghost predicate Counted(st: State) {
    && st.inFlight == |st.pending| + |st.running| && 0 <= st.inFlight <= MAX_IN_FLIGHT
    && (forall id :: id in st.running ==> id in st.forwarded)
  }

  /** inFlight counts the offers pending or being forwarded and stays within its bound; every
      accepted offer is pending, forwarded once or abandoned once, and never two of these. */
  ghost predicate Inv(st: State) {
    Counted(st) && OneFate(st)
  }

  lemma SizeWithout<K, V>(m: map<K, V>, k: K)
    requires k in m
    ensures |Without(m, k)| == |m| - 1
  {
    assert Without(m, k).Keys == m.Keys - {k};
  }

  lemma PendsAfterUpdate(st: State, st': State, key: ConnectionKey, h: Held, id: nat)
    requires st'.pending == st.pending[key := h]
    requires key in st.pending ==> h.id == st.pending[key].id
    ensures Pends(st', id) <==> Pends(st, id) || id == h.id
  {
    if Pends(st, id) {
      var k :| k in st.pending && st.pending[k].id == id;
      assert k in st'.pending && st'.pending[k].id == id;
    }
    assert key in st'.pending && st'.pending[key].id == h.id;
  }

  lemma PendsAfterRemoval(st: State, st': State, key: ConnectionKey, id: nat)
    requires OneFate(st) && key in st.pending && st'.pending == Without(st.pending, key)
    ensures Pends(st', id) <==> Pends(st, id) && id != st.pending[key].id
  {
    if Pends(st, id) && id != st.pending[key].id {
      var k :| k in st.pending && st.pending[k].id == id;
      assert k in st'.pending && st'.pending[k].id == id;
    }
  }

  lemma PendsOfSame(st: State, st': State, id: nat)
    requires st.pending == st'.pending
    ensures Pends(st', id) == Pends(st, id)
  {}

  lemma NotifyKeepsFates(st: State, s: Signal)
    requires OneFate(st)
    ensures OneFate(Notify(st, s))
  {
    var st' := Notify(st, s);
    var key := s.Key();
    if s.typ.Offer? && AcceptsOffer(st, s) {
      assert Fates(st, |st.keys|) == 0;
      forall id: nat ensures Fates(st', id) == if id < |st'.keys| then 1 else 0 {
        PendsAfterUpdate(st, st', key, st'.pending[key], id);
        assert Fates(st, id) == if id < |st.keys| then 1 else 0;
      }
      forall k | k in st.pending ensures st.pending[k].id != |st.keys| { assert Pends(st, st.pending[k].id); }
    } else if s.typ.Candidate? && KeepsCandidate(st, s) {
      forall id: nat ensures Fates(st', id) == Fates(st, id) {
        PendsAfterUpdate(st, st', key, st'.pending[key], id);
      }
    } else if s.typ.Error? && key in st.pending {
      assert Pends(st, st.pending[key].id);
      forall id: nat ensures Fates(st', id) == Fates(st, id) { PendsAfterRemoval(st, st', key, id); }
    }
  }

  lemma BeginKeepsFates(st: State, f: Firing)
    requires OneFate(st)
    ensures OneFate(Begun(st, f))
  {
    var st' := Begun(st, f);
    if f.key in st.pending {
      assert Pends(st, st.pending[f.key].id);
      forall id: nat ensures Fates(st', id) == Fates(st, id) { PendsAfterRemoval(st, st', f.key, id); }
    } else {
      forall id: nat ensures Fates(st', id) == Fates(st, id) { PendsOfSame(st, st', id); }
    }
  }

  lemma NotifyKeepsCount(st: State, s: Signal)
    requires Counted(st)
    ensures Counted(Notify(st, s))
  {
    if s.typ.Error? && s.Key() in st.pending { SizeWithout(st.pending, s.Key()); }
  }

  lemma BeginKeepsCount(st: State, f: Firing)
    requires Inv(st)
    ensures Counted(Begun(st, f))
  {
    if f.key in st.pending {
      var id := st.pending[f.key].id;
      assert Pends(st, id) && Fates(st, id) <= 1;
      SizeWithout(st.pending, f.key);
    }
  }

  lemma StepKeepsInv(st: State, step: Step)
    requires Inv(st) && Enabled(st, step)
    ensures Inv(Next(st, step))
  {
    match step
    case Incoming(s) =>
      NotifyKeepsFates(st, s);
      NotifyKeepsCount(st, s);
    case Begin(f) =>
      BeginKeepsFates(st, f);
      BeginKeepsCount(st, f);
    case _ =>
      var st' := Next(st, step);
      forall id: nat ensures Fates(st', id) == Fates(st, id) { PendsOfSame(st, st', id); }
  }

  lemma {:induction false} EveryRunKeepsInv(steps: seq<Step>)
    ensures Inv(After(steps))
  {
    if steps != [] {
      var n := |steps| - 1;
      EveryRunKeepsInv(steps[..n]);
      if Enabled(After(steps[..n]), steps[n]) { StepKeepsInv(After(steps[..n]), steps[n]); }
    }
  }

  /** In words: whatever the interleaving, an offer is forwarded at most once or abandoned at most
      once, never both, and never while it is still pending. */
  lemma EveryOfferHasOneFate(steps: seq<Step>, id: nat)
    ensures var st := After(steps);
      && st.forwarded[id] + st.abandoned[id] <= 1
      && (Pends(st, id) ==> id !in st.forwarded && id !in st.abandoned)
      && (id < |st.keys| ==> Pends(st, id) || id in st.forwarded || id in st.abandoned)
  {
    EveryRunKeepsInv(steps);
    assert Fates(After(steps), id) == if id < |After(steps).keys| then 1 else 0;
  }

  // ---------------------------------------------------------------------------------------------
  // What the signals of a run do

  lemma AfterSnoc(steps: seq<Step>, step: Step)
    ensures After(steps + [step]) == Do(After(steps), step)
  {
    assert (steps + [step])[..|steps|] == steps;
  }

  /** An offer is taken exactly if none is pending for its connection, it has at most 64 KiB and fewer than 32
      are pending or being forwarded. It may wait for two seconds, and its timer is set for 150 ms, but one that
      carries candidates already is due at once. */
  lemma OfferSignal(steps: seq<Step>, s: Signal)
    requires s.typ.Offer?
    ensures var st, st', key := After(steps), After(steps + [Incoming(s)]), s.Key();
      var waits := Sdp.CandidatesIn(s.data) == [];
      if key !in st.pending && ByteLength(s.data) <= 65536 && |st.pending| + |st.running| < 32 then
        && Handled(st, s) && st'.keys == st.keys + [key] && st'.inFlight == st.inFlight + 1
        && st'.pending == st.pending[key :=
             Held(|st.keys|, s.data, [], if waits then st.now + 2000 else st.now, st.now, st.now, 1)]
        && st'.timers == st.timers[|st.keys| := Alarm(key, if waits then st.now + 150 else st.now)]
        && (st'.now, st'.firings, st'.running) == (st.now, st.firings, st.running)
      else !Handled(st, s) && st' == st
  {
    AfterSnoc(steps, Incoming(s));
    RunCounts(steps);
    Sdp.InlineCandidateIffRead(s.data);
    hide After, ByteLength, Sdp.HasInlineCandidate, Sdp.CandidatesIn;
    TakenOffer(After(steps), s);
  }

  lemma RunCounts(steps: seq<Step>)
    ensures var st := After(steps); st.inFlight == |st.pending| + |st.running|
  {
    EveryRunKeepsInv(steps);
  }

  lemma TakenOffer(st: State, s: Signal)
    requires s.typ.Offer?
    ensures Notify(st, s) ==
      if !AcceptsOffer(st, s) then st
      else
        var due := Deadline(s.data, st.now);
        st.(inFlight := st.inFlight + 1, keys := st.keys + [s.Key()],
            pending := st.pending[s.Key() := Held(|st.keys|, s.data, [], due, st.now, st.now, 1)],
            timers := st.timers[|st.keys| := Alarm(s.Key(), AlarmTime(due, st.now))])
  {
    hide ByteLength, Deadline, AlarmTime;
  }

  /** A candidate is kept exactly if its offer is pending with fewer than 32, it has at most 1024 bytes and it is
      no relay candidate. Then the timer is set anew for 150 ms, but not past the deadline. */
  lemma CandidateSignal(steps: seq<Step>, s: Signal)
    requires s.typ.Candidate?
    ensures var st, st', key := After(steps), After(steps + [Incoming(s)]), s.Key();
      && Handled(st, s)
      && if key in st.pending && |st.pending[key].candidates| < 32 && ByteLength(s.data) <= 1024
            && !Sdp.RelayCandidate(s.data)
         then
           var h := st.pending[key];
           var due := if h.deadline <= st.now then st.now
             else if h.deadline <= st.now + 150 then h.deadline else st.now + 150;
           && st'.pending == st.pending[key :=
                h.(candidates := h.candidates + [s.data], armedAt := st.now, arms := h.arms + 1)]
           && st'.timers == st.timers[h.id := Alarm(key, due)]
           && (st'.now, st'.inFlight, st'.firings, st'.running) == (st.now, st.inFlight, st.firings, st.running)
         else st' == st
  {
    AfterSnoc(steps, Incoming(s));
    hide After, ByteLength, Sdp.RelayCandidate;
  }

  /** An error gives the pending offer of its connection up, and its timer with it. What else a client may send
      is not for the host. */
  lemma OtherSignal(steps: seq<Step>, s: Signal)
    requires !s.typ.Offer? && !s.typ.Candidate?
    ensures var st, st', key := After(steps), After(steps + [Incoming(s)]), s.Key();
      && (Handled(st, s) <==> s.typ.Error?)
      && if s.typ.Error? && key in st.pending then
           var id := st.pending[key].id;
           && st'.pending.Keys == st.pending.Keys - {key} && id !in st'.timers
           && (forall k :: k in st'.pending ==> st'.pending[k] == st.pending[k])
           && (forall i :: i in st.timers && i != id ==> i in st'.timers && st'.timers[i] == st.timers[i])
           && st'.inFlight == st.inFlight - 1 && id in st'.abandoned
           && (st'.now, st'.firings, st'.running) == (st.now, st.firings, st.running)
         else st' == st
  {
    AfterSnoc(steps, Incoming(s));
  }

  ghost predicate Direct(h: Held) {
    && ByteLength(h.sdp) <= 65536 && |h.candidates| <= 32
    && (forall i :: 0 <= i < |h.candidates| ==> DirectCandidate(h.candidates[i]))
    && h.deadline == h.acceptedAt + (if Sdp.CandidatesIn(h.sdp) == [] then 2000 else 0)
  }

  predicate DirectCandidate(c: string) {
    ByteLength(c) <= 1024 && !Sdp.RelayCandidate(c)
  }

  ghost predicate AllDirect(st: State) {
    forall key :: key in st.pending ==> Direct(st.pending[key])
  }

  lemma NotifyKeepsDirect(st: State, s: Signal)
    requires AllDirect(st)
    ensures AllDirect(Notify(st, s))
  {
    hide ByteLength, Sdp.RelayCandidate, Sdp.HasInlineCandidate, Sdp.CandidatesIn;
    Sdp.InlineCandidateIffRead(s.data);
    var st' := Notify(st, s);
    forall k | k in st'.pending ensures Direct(st'.pending[k]) {
      assert k in st.pending ==> Direct(st.pending[k]);
    }
  }

  /** In every run, whatever is held was within the limits, none of it is a relay candidate, and the deadline is
      two seconds after the offer came, or then if it carried candidates. */
  lemma {:induction false} EveryRunHoldsDirect(steps: seq<Step>, key: ConnectionKey)
    requires key in After(steps).pending
    ensures var h := After(steps).pending[key];
      && ByteLength(h.sdp) <= 65536 && |h.candidates| <= 32
      && (forall i :: 0 <= i < |h.candidates| ==>
            ByteLength(h.candidates[i]) <= 1024 && !Sdp.RelayCandidate(h.candidates[i]))
      && h.deadline == h.acceptedAt + (if Sdp.CandidatesIn(h.sdp) == [] then 2000 else 0)
  {
    EveryRunIsDirect(steps);
    var h := After(steps).pending[key];
    assert Direct(h);
    hide ByteLength, Sdp.RelayCandidate, Sdp.CandidatesIn, AllDirect, After;
    assert forall i :: 0 <= i < |h.candidates| ==> DirectCandidate(h.candidates[i]);
  }

  lemma StepKeepsDirect(st: State, step: Step)
    requires AllDirect(st) && Enabled(st, step)
    ensures AllDirect(Next(st, step))
  {
    hide Direct;
    if step.Incoming? {
      NotifyKeepsDirect(st, step.signal);
    } else {
      var st' := Next(st, step);
      forall k | k in st'.pending ensures Direct(st'.pending[k]) {
        assert k in st.pending && st'.pending[k] == st.pending[k];
      }
    }
  }

  lemma {:induction false} EveryRunIsDirect(steps: seq<Step>)
    ensures AllDirect(After(steps))
  {
    hide AllDirect, Next;
    if steps != [] {
      var n := |steps| - 1;
      EveryRunIsDirect(steps[..n]);
      if Enabled(After(steps[..n]), steps[n]) { StepKeepsDirect(After(steps[..n]), steps[n]); }
    } else {
      NothingHeld();
    }
  }

  lemma NothingHeld()
    ensures AllDirect(NEW_BROKER)
  {}

  /** What a run would post has no relay candidate exactly if none of those held is disguised. */
  lemma NoRelayFromAnyRunIff(steps: seq<Step>, key: ConnectionKey)
    requires key in After(steps).pending && All(After(steps).pending[key].candidates, Sdp.OneLine)
    ensures var h := After(steps).pending[key]; var ls := Lines(Sdp.Rewritten(h.sdp, h.candidates));
      (forall i :: 0 <= i < |ls| ==> !Sdp.RelayLine(ls[i])) <==>
      forall i :: 0 <= i < |h.candidates| ==> !Sdp.Disguised(h.candidates[i])
  {
    EveryRunHoldsDirect(steps, key);
    hide *;
    Sdp.NoRelayPostedIff(After(steps).pending[key].sdp, After(steps).pending[key].candidates);
  }

  // ---------------------------------------------------------------------------------------------
  // Timing

  /** A step of a run in which the clock never passes a timer that is due or a callback that waits
      for the lock. */
  predicate Prompt(st: State, step: Step) {
    step.Tick? && step.ms > 0 ==>
      st.firings == multiset{} && forall id :: id in st.timers ==> st.now + step.ms <= st.timers[id].when
  }

  ghost predicate PromptRun(steps: seq<Step>) {
    forall i :: 0 <= i < |steps| ==> Prompt(After(steps[..i]), steps[i])
  }

  predicate Current(h: Held, f: Firing) {
    f.id == h.id && f.arms == h.arms
  }

  /** The offer's own timer is set for when it should be, or its callback is waiting. */
  ghost predicate Watched(st: State, key: ConnectionKey, h: Held) {
    || (h.id in st.timers && st.timers[h.id] == Alarm(key, h.Due()))
    || Firing(key, h.id, h.arms) in st.firings
  }

  ghost predicate HeldInTime(st: State, key: ConnectionKey, h: Held) {
    && h.acceptedAt <= h.armedAt <= st.now <= h.deadline <= h.acceptedAt + MAX_GATHER
    && h.arms == 1 + |h.candidates| && |h.candidates| <= MAX_CANDIDATES
    && (h.id in st.timers ==> st.timers[h.id] == Alarm(key, h.Due()))
    && Watched(st, key, h)
  }

  ghost predicate InTime(st: State) {
    && (forall key :: key in st.pending ==> HeldInTime(st, key, st.pending[key]))
    && (forall id :: id in st.timers ==> st.now <= st.timers[id].when && id < |st.keys|)
  }

  lemma OtherOffersKeepTime(st: State, st': State, key: ConnectionKey, id: nat)
    requires Inv(st) && InTime(st) && key in st'.pending
    requires key in st.pending ==> st.pending[key].id == id
    requires key !in st.pending ==> id == |st.keys|
    requires st'.now == st.now && st'.firings == st.firings
    requires forall k :: k != key ==> (k in st.pending <==> k in st'.pending)
    requires forall k :: k != key && k in st.pending ==> st'.pending[k] == st.pending[k]
    requires forall i :: i != id ==> (i in st.timers <==> i in st'.timers)
    requires forall i :: i != id && i in st.timers ==> st'.timers[i] == st.timers[i]
    ensures forall k :: k in st'.pending && k != key ==> HeldInTime(st', k, st'.pending[k])
  {
    forall k | k in st'.pending && k != key ensures HeldInTime(st', k, st'.pending[k]) {
      assert HeldInTime(st, k, st.pending[k]);
      assert Pends(st, st.pending[k].id) && Fates(st, st.pending[k].id) == 1;
    }
  }

  lemma OfferKeepsTime(st: State, s: Signal)
    requires Inv(st) && InTime(st) && s.typ.Offer? && AcceptsOffer(st, s)
    ensures InTime(Notify(st, s))
  {
    OtherOffersKeepTime(st, Notify(st, s), s.Key(), |st.keys|);
  }

  lemma CandidateKeepsTime(st: State, s: Signal)
    requires Inv(st) && InTime(st) && s.typ.Candidate? && KeepsCandidate(st, s)
    ensures InTime(Notify(st, s))
  {
    var h := st.pending[s.Key()];
    var st' := Notify(st, s);
    assert HeldInTime(st, s.Key(), h);
    assert Pends(st, h.id) && Fates(st, h.id) == 1;
    OtherOffersKeepTime(st, st', s.Key(), h.id);
    assert HeldInTime(st', s.Key(), st'.pending[s.Key()]);
  }

  lemma ErrorKeepsTime(st: State, s: Signal)
    requires Inv(st) && InTime(st) && s.typ.Error? && s.Key() in st.pending
    ensures InTime(Notify(st, s))
  {
    var st' := Notify(st, s);
    forall k | k in st'.pending ensures HeldInTime(st', k, st'.pending[k]) {
      assert HeldInTime(st, k, st.pending[k]);
    }
  }

  lemma NotifyKeepsTime(st: State, s: Signal)
    requires Inv(st) && InTime(st)
    ensures InTime(Notify(st, s))
  {
    if s.typ.Offer? && AcceptsOffer(st, s) {
      OfferKeepsTime(st, s);
    } else if s.typ.Candidate? && KeepsCandidate(st, s) {
      CandidateKeepsTime(st, s);
    } else if s.typ.Error? && s.Key() in st.pending {
      ErrorKeepsTime(st, s);
    } else {
      assert Notify(st, s) == st;
    }
  }

  lemma FiringKeepsTime(st: State, id: nat)
    requires Inv(st) && InTime(st) && Enabled(st, TimerFires(id))
    ensures InTime(Next(st, TimerFires(id)))
  {
    var st' := Next(st, TimerFires(id));
    forall k | k in st'.pending ensures HeldInTime(st', k, st'.pending[k]) {
      assert HeldInTime(st, k, st.pending[k]);
      if st.pending[k].id == id && st.timers[id].key == k {
        assert Fired(st, id) == Firing(k, id, st.pending[k].arms);
      }
    }
  }

  lemma BeginKeepsTime(st: State, f: Firing)
    requires Inv(st) && InTime(st) && f in st.firings
    ensures InTime(Begun(st, f))
  {
    var st' := Begun(st, f);
    forall k | k in st'.pending ensures HeldInTime(st', k, st'.pending[k]) {
      assert HeldInTime(st, k, st.pending[k]);
      assert Firing(k, st.pending[k].id, st.pending[k].arms) != f;
    }
  }

  lemma StepKeepsTime(st: State, step: Step)
    requires Inv(st) && InTime(st) && Enabled(st, step) && Prompt(st, step)
    ensures InTime(Next(st, step))
  {
    match step
    case Incoming(s) => NotifyKeepsTime(st, s);
    case TimerFires(id) => FiringKeepsTime(st, id);
    case Begin(f) => BeginKeepsTime(st, f);
    case Tick(ms) =>
      var st' := Next(st, step);
      forall k | k in st'.pending ensures HeldInTime(st', k, st'.pending[k]) {
        assert HeldInTime(st, k, st.pending[k]);
      }
    case End(id) =>
      var st' := Next(st, step);
      forall k | k in st'.pending ensures HeldInTime(st', k, st'.pending[k]) {
        assert HeldInTime(st, k, st.pending[k]);
      }
  }

  lemma {:induction false} PromptRunIsInTime(steps: seq<Step>)
    requires PromptRun(steps)
    ensures InTime(After(steps))
  {
    if steps != [] {
      var n := |steps| - 1;
      var before := steps[..n];
      assert forall i :: 0 <= i < n ==> before[..i] == steps[..i] && before[i] == steps[i];
      PromptRunIsInTime(before);
      EveryRunKeepsInv(before);
      assert Prompt(After(before), steps[n]);
      if Enabled(After(before), steps[n]) { StepKeepsTime(After(before), steps[n]); }
    }
  }

  /** An offer never waits past its deadline, at most two seconds after it was accepted and not at all if it
      carried candidates, and is armed once for itself and once for each candidate kept. */
  lemma HeldAtMostTwoSeconds(steps: seq<Step>, key: ConnectionKey)
    requires PromptRun(steps) && key in After(steps).pending
    ensures var st := After(steps); var h := st.pending[key];
      && st.now <= h.deadline && st.now - h.acceptedAt <= 2000
      && (Sdp.CandidatesIn(h.sdp) != [] ==> st.now == h.acceptedAt)
      && h.arms == 1 + |h.candidates| <= 33
  {
    EveryRunHoldsDirect(steps, key);
    PromptRunIsInTime(steps);
    assert HeldInTime(After(steps), key, After(steps).pending[key]);
  }

  /** Callbacks were started for offers that had been accepted. */
  ghost predicate Issued(st: State) {
    forall f :: f in st.firings ==> f.id < |st.keys|
  }

  /** A callback that waits for the lock was started for the offer as it is, or the offer has been
      armed anew at this very instant. One started for an earlier offer of the key while that was still
      pending finds an offer that was accepted at this very instant. */
  predicate CallbackInTime(st: State, f: Firing) {
    f.key in st.pending ==>
      var h := st.pending[f.key];
      if f.id == h.id
      then f.arms <= h.arms && if f.arms == h.arms then h.Due() <= st.now else h.armedAt == st.now
      else f.arms > 0 ==> h.acceptedAt == st.now
  }

  ghost predicate CallbacksInTime(st: State) {
    forall f :: f in st.firings ==> CallbackInTime(st, f)
  }

  lemma NotifyKeepsCallback(st: State, s: Signal, f: Firing)
    requires CallbackInTime(st, f) && f.id < |st.keys|
    ensures CallbackInTime(Notify(st, s), f)
  {
    var st' := Notify(st, s);
    if s.typ.Offer? && AcceptsOffer(st, s) {
      assert st'.pending[s.Key()].id == |st.keys|;
    } else if s.typ.Candidate? && KeepsCandidate(st, s) {
      assert st'.pending[s.Key()].arms == st.pending[s.Key()].arms + 1;
    }
  }

  lemma NotifyKeepsCallbacks(st: State, s: Signal)
    requires Issued(st) && CallbacksInTime(st)
    ensures CallbacksInTime(Notify(st, s))
  {
    assert Notify(st, s).firings == st.firings;
    forall f | f in st.firings ensures CallbackInTime(Notify(st, s), f) { NotifyKeepsCallback(st, s, f); }
  }

  lemma FiringKeepsCallbacks(st: State, id: nat)
    requires InTime(st) && CallbacksInTime(st) && Enabled(st, TimerFires(id))
    ensures CallbacksInTime(Next(st, TimerFires(id)))
  {
    var key := st.timers[id].key;
    if key in st.pending && st.pending[key].id == id { assert HeldInTime(st, key, st.pending[key]); }
  }

  lemma StepKeepsIssued(st: State, step: Step)
    requires InTime(st) && Issued(st) && Enabled(st, step)
    ensures Issued(Next(st, step))
  {
    if step.Incoming? {
      assert Notify(st, step.signal).firings == st.firings;
      assert |Notify(st, step.signal).keys| >= |st.keys|;
    }
  }

  lemma TickKeepsCallbacks(st: State, ms: nat)
    requires CallbacksInTime(st) && Prompt(st, Tick(ms))
    ensures CallbacksInTime(Next(st, Tick(ms)))
  {
    var st' := Next(st, Tick(ms));
    forall f | f in st'.firings ensures CallbackInTime(st', f) {
      assert CallbackInTime(st, f);
    }
  }

  lemma BeginKeepsCallbacks(st: State, f: Firing)
    requires CallbacksInTime(st)
    ensures CallbacksInTime(Begun(st, f))
  {
    var st' := Begun(st, f);
    forall g | g in st'.firings ensures CallbackInTime(st', g) {
      assert CallbackInTime(st, g);
    }
  }

  lemma StepKeepsCallbacks(st: State, step: Step)
    requires InTime(st) && Issued(st) && CallbacksInTime(st)
    requires Enabled(st, step) && Prompt(st, step)
    ensures CallbacksInTime(Next(st, step))
  {
    match step
    case Incoming(s) => NotifyKeepsCallbacks(st, s);
    case TimerFires(id) => FiringKeepsCallbacks(st, id);
    case Begin(f) => BeginKeepsCallbacks(st, f);
    case Tick(ms) => TickKeepsCallbacks(st, ms);
    case End(id) =>
      forall f | f in st.firings ensures CallbackInTime(Next(st, step), f) {
        assert CallbackInTime(st, f);
      }
  }

  lemma {:induction false} PromptRunKeepsCallbacks(steps: seq<Step>)
    requires PromptRun(steps)
    ensures Issued(After(steps)) && CallbacksInTime(After(steps))
  {
    if steps != [] {
      var n := |steps| - 1;
      var before := steps[..n];
      assert forall i :: 0 <= i < n ==> before[..i] == steps[..i] && before[i] == steps[i];
      PromptRunKeepsCallbacks(before);
      PromptRunIsInTime(before);
      EveryRunKeepsInv(before);
      assert Prompt(After(before), steps[n]);
      if Enabled(After(before), steps[n]) {
        StepKeepsIssued(After(before), steps[n]);
        StepKeepsCallbacks(After(before), steps[n]);
      }
    }
  }

  /** A forward is never earlier than the offer's deadline or, if that is sooner, the quiet time after
      its last kept candidate, exactly when its callback was started for the offer as it is or the
      deadline has come anyway. This is about every callback but those of a timer that goes off when
      its offer is gone already. */
  lemma ForwardIsTimelyIff(steps: seq<Step>, f: Firing)
    requires PromptRun(steps) && f in After(steps).firings && f.key in After(steps).pending
    requires f.arms > 0 || f.id == After(steps).pending[f.key].id
    ensures var st := After(steps); var h := st.pending[f.key];
      h.Due() <= st.now <==> Current(h, f) || h.deadline <= st.now
  {
    PromptRunKeepsCallbacks(steps);
    PromptRunIsInTime(steps);
    assert HeldInTime(After(steps), f.key, After(steps).pending[f.key]);
  }

  /** Whatever callback takes an offer, those of stale timers included: the forward is no earlier than
      that exactly when the offer's own timer is due or its own callback waits as well. */
  lemma ForwardIsTimelyIffOwnTimerIsDue(steps: seq<Step>, key: ConnectionKey)
    requires PromptRun(steps) && key in After(steps).pending
    ensures var st := After(steps); var h := st.pending[key];
      h.Due() <= st.now <==>
      (h.id in st.timers && st.timers[h.id].when <= st.now) || Firing(key, h.id, h.arms) in st.firings
  {
    PromptRunKeepsCallbacks(steps);
    PromptRunIsInTime(steps);
    var st := After(steps);
    var h := st.pending[key];
    assert HeldInTime(st, key, h);
    if Firing(key, h.id, h.arms) in st.firings {
      assert CallbackInTime(st, Firing(key, h.id, h.arms));
    }
  }

  /** No offer is taken and no candidate is kept while a callback of the same key waits for the lock. */
  predicate Undisturbed(st: State, step: Step) {
    step.Incoming? && ((step.signal.typ.Offer? && AcceptsOffer(st, step.signal))
                       || (step.signal.typ.Candidate? && KeepsCandidate(st, step.signal))) ==>
      forall f :: f in st.firings ==> f.key != step.signal.Key()
  }

  ghost predicate UndisturbedRun(steps: seq<Step>) {
    forall i :: 0 <= i < |steps| ==> Undisturbed(After(steps[..i]), steps[i])
  }

  /** Every timer belongs to the pending offer of its key, and a waiting callback that finds an offer was
      started for that offer as it is. */
  ghost predicate Tidy(st: State) {
    && (forall id :: id in st.timers ==>
          st.timers[id].key in st.pending && st.pending[st.timers[id].key].id == id)
    && (forall f :: f in st.firings && f.key in st.pending ==>
          Current(st.pending[f.key], f) && f.id !in st.timers)
  }

  lemma OfferKeepsTidy(st: State, s: Signal)
    requires Issued(st) && Tidy(st) && Undisturbed(st, Incoming(s)) && s.typ.Offer? && AcceptsOffer(st, s)
    ensures Tidy(Notify(st, s))
  {
    var st' := Notify(st, s);
    forall f | f in st'.firings && f.key in st'.pending ensures Current(st'.pending[f.key], f) && f.id !in st'.timers {
      assert f in st.firings && f.id < |st.keys|;
    }
  }

  lemma CandidateKeepsTidy(st: State, s: Signal)
    requires OneFate(st) && Tidy(st) && Undisturbed(st, Incoming(s)) && s.typ.Candidate? && KeepsCandidate(st, s)
    ensures Tidy(Notify(st, s))
  {
    var st' := Notify(st, s);
    var h := st.pending[s.Key()];
    forall f | f in st'.firings && f.key in st'.pending ensures Current(st'.pending[f.key], f) && f.id !in st'.timers {
      assert f in st.firings && f.id == st.pending[f.key].id != h.id;
    }
  }

  lemma NotifyKeepsTidy(st: State, s: Signal)
    requires Inv(st) && Issued(st) && Tidy(st) && Undisturbed(st, Incoming(s))
    ensures Tidy(Notify(st, s))
  {
    if s.typ.Offer? && AcceptsOffer(st, s) {
      OfferKeepsTidy(st, s);
    } else if s.typ.Candidate? && KeepsCandidate(st, s) {
      CandidateKeepsTidy(st, s);
    }
  }

  lemma FiringKeepsTidy(st: State, id: nat)
    requires Inv(st) && Tidy(st) && Enabled(st, TimerFires(id))
    ensures Tidy(Next(st, TimerFires(id)))
  {}

  lemma BeginKeepsTidy(st: State, f: Firing)
    requires Tidy(st) && f in st.firings
    ensures Tidy(Begun(st, f))
  {}

  lemma StepKeepsTidy(st: State, step: Step)
    requires Inv(st) && Issued(st) && Tidy(st) && Enabled(st, step) && Undisturbed(st, step)
    ensures Tidy(Next(st, step))
  {
    match step
    case Incoming(s) => NotifyKeepsTidy(st, s);
    case TimerFires(id) => FiringKeepsTidy(st, id);
    case Begin(f) => BeginKeepsTidy(st, f);
    case _ =>
  }

  lemma {:induction false} UndisturbedRunIsTidy(steps: seq<Step>)
    requires PromptRun(steps) && UndisturbedRun(steps)
    ensures Tidy(After(steps))
  {
    if steps != [] {
      var n := |steps| - 1;
      var before := steps[..n];
      assert forall i :: 0 <= i < n ==> before[..i] == steps[..i] && before[i] == steps[i];
      UndisturbedRunIsTidy(before);
      PromptRunKeepsCallbacks(before);
      EveryRunKeepsInv(before);
      assert Undisturbed(After(before), steps[n]);
      if Enabled(After(before), steps[n]) { StepKeepsTidy(After(before), steps[n]); }
    }
  }

  /** So these are the only ways for a forward to come early: if no offer is taken and no candidate is
      kept while a callback of the same key waits, no timer outlives its offer, and every callback that
      finds an offer is that offer's own and comes no earlier than its deadline or its quiet time. */
  lemma UndisturbedForwardsAreTimely(steps: seq<Step>)
    requires PromptRun(steps) && UndisturbedRun(steps)
    ensures var st := After(steps);
      && (forall id :: id in st.timers ==>
            st.timers[id].key in st.pending && st.pending[st.timers[id].key].id == id)
      && (forall f :: f in st.firings && f.key in st.pending ==>
            Current(st.pending[f.key], f) && st.pending[f.key].Due() <= st.now)
  {
    UndisturbedRunIsTidy(steps);
    PromptRunKeepsCallbacks(steps);
    var st := After(steps);
    forall f | f in st.firings && f.key in st.pending
      ensures Current(st.pending[f.key], f) && st.pending[f.key].Due() <= st.now
    {
      assert CallbackInTime(st, f);
    }
  }

  lemma PromptSnoc(steps: seq<Step>, step: Step)
    ensures After(steps + [step]) == Do(After(steps), step)
    ensures PromptRun(steps) && Prompt(After(steps), step) ==> PromptRun(steps + [step])
  {
    var all := steps + [step];
    AfterSnoc(steps, step);
    assert all[..|steps|] == steps && forall i :: 0 <= i < |steps| ==> all[..i] == steps[..i];
  }

  /** The start of both runs below: an offer whose timer has gone off and whose callback waits. */
  lemma OfferThenQuiet(key: ConnectionKey) returns (steps: seq<Step>, f: Firing)
    ensures PromptRun(steps) && f == Firing(key, 0, 1)
    ensures After(steps) == NEW_BROKER.(now := 150, pending := map[key := Held(0, "", [], 2000, 0, 0, 1)],
                                        inFlight := 1, keys := [key], firings := multiset{f})
  {
    f := Firing(key, 0, 1);
    var offer := Incoming(Signal(Offer, key.connectionID, "", key.networkID));
    OfferArrives(key);
    PromptSnoc([], offer);
    QuietPasses(key);
    PromptSnoc([] + [offer], Tick(150));
    PromptSnoc([] + [offer] + [Tick(150)], TimerFires(0));
    steps := [] + [offer] + [Tick(150)] + [TimerFires(0)];
  }

  /** A broker with one pending offer without candidates, and its timer. */
  function OneOffer(key: ConnectionKey, now: int): State {
    NEW_BROKER.(now := now, pending := map[key := Held(0, "", [], 2000, 0, 0, 1)], inFlight := 1, keys := [key],
               timers := map[0 := Alarm(key, 150)])
  }

  lemma OfferArrives(key: ConnectionKey)
    ensures Do(NEW_BROKER, Incoming(Signal(Offer, key.connectionID, "", key.networkID))) == OneOffer(key, 0)
  {
    NothingInEmpty();
    hide Sdp.HasInlineCandidate;
    assert ByteLength("") == 0;
    var s := Signal(Offer, key.connectionID, "", key.networkID);
    assert s.Key() == key && AcceptsOffer(NEW_BROKER, s) && Deadline("", 0) == 2000;
  }

  lemma QuietPasses(key: ConnectionKey)
    ensures Prompt(OneOffer(key, 0), Tick(150)) && Do(OneOffer(key, 0), Tick(150)) == OneOffer(key, 150)
    ensures Do(OneOffer(key, 150), TimerFires(0)) ==
      OneOffer(key, 150).(timers := map[], firings := multiset{Firing(key, 0, 1)})
  {}

  /** A candidate kept while the callback waits is forwarded with no quiet time at all. */
  lemma CandidateWhileCallbackWaits() returns (steps: seq<Step>, f: Firing)
    ensures PromptRun(steps) && f in After(steps).firings && f.key in After(steps).pending
    ensures After(steps).pending[f.key].id == f.id && After(steps).now < After(steps).pending[f.key].Due()
  {
    var key := ConnectionKey("", 0);
    var start: seq<Step>;
    start, f := OfferThenQuiet(key);
    NothingInEmpty();
    var candidate := Incoming(Signal(Candidate, 0, "", ""));
    PromptSnoc(start, candidate);
    steps := start + [candidate];
  }

  lemma AbandonedWhileCallbackWaits(key: ConnectionKey) returns (steps: seq<Step>, f: Firing)
    ensures PromptRun(steps) && f == Firing(key, 0, 1)
    ensures After(steps) == NEW_BROKER.(now := 150, keys := [key], firings := multiset{f}, abandoned := multiset{0})
  {
    var start: seq<Step>;
    start, f := OfferThenQuiet(key);
    var error := Incoming(Signal(Error, key.connectionID, "", key.networkID));
    PromptSnoc(start, error);
    steps := start + [error];
    ErrorAbandons(key);
  }

  lemma ErrorAbandons(key: ConnectionKey)
    ensures var f := Firing(key, 0, 1);
      Do(OneOffer(key, 150).(timers := map[], firings := multiset{f}),
         Incoming(Signal(Error, key.connectionID, "", key.networkID)))
      == NEW_BROKER.(now := 150, keys := [key], firings := multiset{f}, abandoned := multiset{0})
  {
    var st := OneOffer(key, 150).(timers := map[], firings := multiset{Firing(key, 0, 1)});
    var s := Signal(Error, key.connectionID, "", key.networkID);
    assert s.Key() == key;
    assert Without(st.pending, key) == map[] && Without(st.timers, 0) == map[];
    assert st.abandoned + multiset{0} == multiset{0};
  }

  /** A key used again while a callback for an abandoned offer waits forwards the new offer at once. */
  lemma KeyReusedWhileCallbackWaits() returns (steps: seq<Step>, f: Firing)
    ensures PromptRun(steps) && f in After(steps).firings && f.key in After(steps).pending && f.arms > 0
    ensures After(steps).pending[f.key].id != f.id && After(steps).now < After(steps).pending[f.key].Due()
  {
    var key := ConnectionKey("", 0);
    var start: seq<Step>;
    start, f := AbandonedWhileCallbackWaits(key);
    NothingInEmpty();
    var offer := Incoming(Signal(Offer, 0, "", ""));
    PromptSnoc(start, offer);
    steps := start + [offer];
    assert After(steps).pending[key] == Held(1, "", [], 2150, 150, 150, 1);
  }

  /** The offer of OfferThenQuiet is taken by its callback right after a candidate has set its timer
      anew, so the timer is left running without an offer. */
  lemma ForwardedWithTimerRunning(key: ConnectionKey) returns (steps: seq<Step>)
    ensures PromptRun(steps)
    ensures After(steps) == TimerLeft(key, 150)
  {
    var start: seq<Step>;
    var f: Firing;
    start, f := OfferThenQuiet(key);
    NothingInEmpty();
    var candidate := Incoming(Signal(Candidate, key.connectionID, "", key.networkID));
    PromptSnoc(start, candidate);
    PromptSnoc(start + [candidate], Begin(f));
    steps := start + [candidate] + [Begin(f)];
    var armed := After(start + [candidate]);
    assert armed.firings == multiset{f} && f.key in armed.pending && armed.pending[f.key].id == 0;
    assert Without(armed.pending, f.key) == map[];
  }

  /** That timer, made for an offer long gone, forwards the next offer of the key before its time: no
      offer was abandoned, and no callback was waiting when the key was used again. */
  lemma StaleTimerForwardsNextOffer() returns (steps: seq<Step>, f: Firing)
    ensures PromptRun(steps) && f in After(steps).firings && f.key in After(steps).pending && f.arms == 0
    ensures After(steps).abandoned == multiset{}
    ensures After(steps).pending[f.key].id != f.id && After(steps).now < After(steps).pending[f.key].Due()
  {
    var key := ConnectionKey("", 0);
    var start := ForwardedWithTimerRunning(key);
    f := Firing(key, 0, 0);
    var offer := Incoming(Signal(Offer, 0, "", ""));
    var s1 := start + [Tick(100)];
    var s2 := s1 + [offer];
    var s3 := s2 + [Tick(50)];
    steps := s3 + [TimerFires(0)];
    PromptSnoc(start, Tick(100));
    PromptSnoc(s1, offer);
    PromptSnoc(s2, Tick(50));
    PromptSnoc(s3, TimerFires(0));
    TimerRunsOn(key);
    NextOfferWaits(key);
    StaleTimerFires(key);
  }

  /** The broker of ForwardedWithTimerRunning, at a later time. */
  function TimerLeft(key: ConnectionKey, now: int): State {
    NEW_BROKER.(now := now, inFlight := 1, keys := [key], timers := map[0 := Alarm(key, 300)],
                running := {0}, forwarded := multiset{0})
  }

  /** The same with the next offer of the key pending since 250. */
  function NextPending(key: ConnectionKey, now: int): State {
    TimerLeft(key, now).(pending := map[key := Held(1, "", [], 2250, 250, 250, 1)], inFlight := 2,
                         keys := [key, key], timers := map[0 := Alarm(key, 300), 1 := Alarm(key, 400)])
  }

  lemma TimerRunsOn(key: ConnectionKey)
    ensures Prompt(TimerLeft(key, 150), Tick(100)) && Do(TimerLeft(key, 150), Tick(100)) == TimerLeft(key, 250)
    ensures Prompt(NextPending(key, 250), Tick(50)) && Do(NextPending(key, 250), Tick(50)) == NextPending(key, 300)
  {}

  lemma NextOfferWaits(key: ConnectionKey)
    ensures var offer := Incoming(Signal(Offer, key.connectionID, "", key.networkID));
      Do(TimerLeft(key, 250), offer) == NextPending(key, 250)
  {
    NothingInEmpty();
    hide Sdp.HasInlineCandidate;
    assert ByteLength("") == 0;
    var s := Signal(Offer, key.connectionID, "", key.networkID);
    assert s.Key() == key && AcceptsOffer(TimerLeft(key, 250), s) && Deadline("", 250) == 2250;
  }

  lemma StaleTimerFires(key: ConnectionKey)
    ensures var st := Do(NextPending(key, 300), TimerFires(0));
      st == NextPending(key, 300).(timers := map[1 := Alarm(key, 400)], firings := multiset{Firing(key, 0, 0)})
  {}

  lemma NothingInEmpty()
    ensures !Sdp.HasInlineCandidate("") && Eligible("")
  {
    Sdp.InlineCandidateIffRead("");
    assert Fields("") == [];
  }
}
