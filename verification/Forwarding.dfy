/** What forward does with one offer between its two locked parts: identify the player, post the
    rewritten offer, and tell the client how it went. */
module Forwarding {
  import opened GoStrings
  import opened Signaling
  import opened OfferIdentity
  import Norelay
  import Sdp

  /** Everything outside the process, and the configuration. verifier is nil without a token
      verifier, allow without allowed_xuids; backend answers a posted offer or fails; delivered says
      whether the n-th action of a forward gets through. */
  datatype World = World(
    verifier: Option<Crypto>,
    allow: Option<string -> bool>,
    records: bool,
    backend: string -> Option<string>,
    delivered: nat -> bool,
    identityNotAllowed: string,
    failedToCreateAnswer: string)

  datatype Action =
    | Post(body: string)
    | Send(signal: Signal)
    | Join(xuid: string, name: string)

  function Identity(job: Norelay.Job, w: World): Option<Player> {
    if w.verifier == None then None else VerifyOffer(job.sdp, w.verifier.value)
  }

  /** allowed_xuids fails closed. */
  predicate Refused(job: Norelay.Job, w: World) {
    w.allow.Some? && (Identity(job, w) == None || !w.allow.value(Identity(job, w).value.xuid))
  }

  function To(key: ConnectionKey, typ: SignalType, data: string): Action {
    Send(Signal(typ, key.connectionID, data, key.networkID))
  }

  /** The candidates trickled to the client, up to the first that does not get through. */
  function Trickled(candidates: seq<string>, key: ConnectionKey, w: World, at: nat): seq<Action> {
    if candidates == [] then []
    else [To(key, Candidate, candidates[0])]
         + if w.delivered(at) then Trickled(candidates[1..], key, w, at + 1) else []
  }

  function Negotiated(job: Norelay.Job, w: World): seq<Action> {
    var body := Sdp.Rewritten(job.sdp, job.candidates);
    var player := Identity(job, w);
    if Refused(job, w) then [To(job.key, Error, w.identityNotAllowed)]
    else if w.backend(body) == None then [Post(body), To(job.key, Error, w.failedToCreateAnswer)]
    else
      var answer := w.backend(body).value;
      var told := [Post(body), To(job.key, Answer, answer)];
      if !w.delivered(1) then told
      else told + Trickled(Sdp.CandidatesIn(answer), job.key, w, 2)
           + if player.Some? && w.records then [Join(player.value.xuid, player.value.name)] else []
  }

  method Negotiate(job: Norelay.Job, w: World) returns (actions: seq<Action>)
    ensures actions == Negotiated(job, w)
  {
    var player: Option<Player> := None;
    if w.verifier.Some? {
      player := VerifyOffer(job.sdp, w.verifier.value);
    }
    if w.allow.Some? {
      if player == None {
        return [To(job.key, Error, w.identityNotAllowed)];
      }
      if !w.allow.value(player.value.xuid) {
        return [To(job.key, Error, w.identityNotAllowed)];
      }
    }
    var sdp, strippedRelay := Sdp.StripRelayCandidates(job.sdp);
    var body := Sdp.InlineCandidates(sdp, job.candidates);
    var answer := w.backend(body);
    if answer == None {
      return [Post(body), To(job.key, Error, w.failedToCreateAnswer)];
    }
    actions := [Post(body), To(job.key, Answer, answer.value)];
    if !w.delivered(1) {
      return;
    }
    var candidates := Sdp.AnswerCandidates(answer.value);
    var sent := SendCandidates(candidates, job.key, w);
    actions := actions + sent;
    if player.Some? && w.records {
      actions := actions + [Join(player.value.xuid, player.value.name)];
    }
  }

  /** The loop of the above. */
  method SendCandidates(candidates: seq<string>, key: ConnectionKey, w: World) returns (sent: seq<Action>)
    ensures sent == Trickled(candidates, key, w, 2)
  {
    sent := [];
    assert candidates[0..] == candidates;
    for i := 0 to |candidates|
      invariant Trickled(candidates, key, w, 2) == sent + Trickled(candidates[i..], key, w, 2 + i)
    {
      TrickledStep(candidates, i, key, w, sent);
      sent := sent + [To(key, Candidate, candidates[i])];
      if !w.delivered(2 + i) {
        return;
      }
    }
  }

  lemma TrickledStep(candidates: seq<string>, i: nat, key: ConnectionKey, w: World, sent: seq<Action>)
    requires i < |candidates|
    ensures var now := sent + [To(key, Candidate, candidates[i])];
      sent + Trickled(candidates[i..], key, w, 2 + i) ==
      if w.delivered(2 + i) then now + Trickled(candidates[i + 1..], key, w, 3 + i) else now
  {
    var rest := candidates[i..];
    assert rest[0] == candidates[i] && rest[1..] == candidates[i + 1..];
    var x, later := [To(key, Candidate, candidates[i])], Trickled(candidates[i + 1..], key, w, 3 + i);
    assert sent + (x + later) == (sent + x) + later;
    assert x + [] == x;
  }

  // ---------------------------------------------------------------------------------------------
  // What every forward keeps to

  predicate Terminal(a: Action) {
    a.Send? && (a.signal.typ.Answer? || a.signal.typ.Error?)
  }

  lemma {:induction false} TrickledAre(candidates: seq<string>, key: ConnectionKey, w: World, at: nat)
    ensures var t := Trickled(candidates, key, w, at);
      |t| <= |candidates| && forall i :: 0 <= i < |t| ==> t[i] == To(key, Candidate, candidates[i])
  {
    if candidates != [] { TrickledAre(candidates[1..], key, w, at + 1); }
  }

  /** The second action is an answer, and it got through. */
  predicate Answered(t: seq<Action>, w: World) {
    |t| >= 2 && t[1].Send? && t[1].signal.typ.Answer? && w.delivered(1)
  }

  /** The shape of what comes after an answer that got through. */
  lemma AfterAnswer(job: Norelay.Job, w: World, i: nat)
    requires 2 <= i < |Negotiated(job, w)|
    ensures var t := Negotiated(job, w); var player := Identity(job, w);
      && Answered(t, w)
      && (t[i].Join? ==> i == |t| - 1 && player.Some? && t[i] == Join(player.value.xuid, player.value.name))
      && (!t[i].Join? ==> (
            i - 2 < |Sdp.CandidatesIn(t[1].signal.data)|
            && t[i] == To(job.key, Candidate, Sdp.CandidatesIn(t[1].signal.data)[i - 2])))
  {
    var t := Negotiated(job, w);
    var answer := w.backend(Sdp.Rewritten(job.sdp, job.candidates)).value;
    var sent := Trickled(Sdp.CandidatesIn(answer), job.key, w, 2);
    TrickledAre(Sdp.CandidatesIn(answer), job.key, w, 2);
    assert t[1] == To(job.key, Answer, answer);
    if i - 2 < |sent| { assert t[i] == sent[i - 2]; }
  }

  /** The player is the one the offer is vouched for by, if tokens can be verified at all. */
  lemma IdentityIff(job: Norelay.Job, w: World, player: Player)
    ensures Identity(job, w) == Some(player) <==>
      w.verifier.Some? && IsVouchedFor(job.sdp, w.verifier.value, player)
  {
    if w.verifier.Some? { VerifyOfferIff(job.sdp, w.verifier.value, player); }
  }

  /** With an allowlist, only the offer of a player on it is for the backend. */
  ghost predicate Welcome(sdp: string, w: World) {
    w.allow.Some? ==>
      w.verifier.Some? && exists player :: IsVouchedFor(sdp, w.verifier.value, player) && w.allow.value(player.xuid)
  }

  lemma WelcomeIff(job: Norelay.Job, w: World)
    ensures Welcome(job.sdp, w) <==> !Refused(job, w)
  {
    hide IsVouchedFor, Identity;
    if w.allow.Some? && w.verifier.Some? {
      forall p | IsVouchedFor(job.sdp, w.verifier.value, p) ensures Identity(job, w) == Some(p) {
        IdentityIff(job, w, p);
      }
    }
    if Identity(job, w).Some? { IdentityIff(job, w, Identity(job, w).value); }
    NoVerifier(job, w);
  }

  lemma NoVerifier(job: Norelay.Job, w: World)
    ensures w.verifier == None ==> Identity(job, w) == None
  {}

  /** The rewritten offer is posted exactly unless an allowlist keeps the player out; then the client is told so
      and nothing else happens. The backend's answer is what the client is told, word for word, or that there
      was none. */
  lemma AnswerIsTheBackends(job: Norelay.Job, w: World)
    ensures var t := Negotiated(job, w); var body := Sdp.Rewritten(job.sdp, job.candidates);
      var id, network := job.key.connectionID, job.key.networkID;
      if !Welcome(job.sdp, w) then t == [Send(Signal(Error, id, w.identityNotAllowed, network))]
      else if w.backend(body) == None then
        t == [Post(body), Send(Signal(Error, id, w.failedToCreateAnswer, network))]
      else
        && |t| >= 2 && t[0] == Post(body) && t[1] == Send(Signal(Answer, id, w.backend(body).value, network))
        && forall i :: 2 <= i < |t| ==> !t[i].Post?
  {
    hide Welcome;
    WelcomeIff(job, w);
    forall i | 2 <= i < |Negotiated(job, w)| ensures !Negotiated(job, w)[i].Post? { AfterAnswer(job, w, i); }
  }

  /** n of the candidates go out: all of them, or those up to the first that does not get through. */
  ghost predicate SentUpTo(n: nat, candidates: seq<string>, w: World, at: nat) {
    && n <= |candidates|
    && (forall k: nat :: at <= k < at + n - 1 ==> w.delivered(k))
    && (n < |candidates| ==> n > 0 && !w.delivered(at + n - 1))
  }

  lemma {:induction false} TrickledCount(candidates: seq<string>, key: ConnectionKey, w: World, at: nat)
    ensures SentUpTo(|Trickled(candidates, key, w, at)|, candidates, w, at)
  {
    if candidates != [] && w.delivered(at) {
      TrickledCount(candidates[1..], key, w, at + 1);
      var n := |Trickled(candidates[1..], key, w, at + 1)|;
      assert SentUpTo(n, candidates[1..], w, at + 1);
    }
  }

  /** After an answer that gets through, the answer's candidates go out in order up to the first that does not
      get through, and last the join, exactly if the player is verified and joins are recorded. After one that
      does not, nothing. */
  lemma WhatFollowsTheAnswer(job: Norelay.Job, w: World, answer: string) returns (n: nat)
    requires Welcome(job.sdp, w) && w.backend(Sdp.Rewritten(job.sdp, job.candidates)) == Some(answer)
    ensures var t := Negotiated(job, w); var cs := Sdp.CandidatesIn(answer);
      if !w.delivered(1) then |t| == 2
      else
        && SentUpTo(n, cs, w, 2) && |t| >= 2 + n
        && (forall i :: 0 <= i < n ==>
              t[2 + i] == Send(Signal(Candidate, job.key.connectionID, cs[i], job.key.networkID)))
        && (forall player :: w.records && w.verifier.Some? && IsVouchedFor(job.sdp, w.verifier.value, player) ==>
              t[2 + n..] == [Join(player.xuid, player.name)])
        && (!w.records || w.verifier == None || (forall player :: !IsVouchedFor(job.sdp, w.verifier.value, player)) ==>
              |t| == 2 + n)
  {
    hide *;
    WelcomeIff(job, w);
    var cs := Sdp.CandidatesIn(answer);
    n := |Trickled(cs, job.key, w, 2)|;
    TrickledCount(cs, job.key, w, 2);
    NoVerifier(job, w);
    forall player ensures Identity(job, w) == Some(player) <==>
      w.verifier.Some? && IsVouchedFor(job.sdp, w.verifier.value, player) { IdentityIff(job, w, player); }
    ActionsAfter(job, w, answer);
  }

  lemma ActionsAfter(job: Norelay.Job, w: World, answer: string)
    requires !Refused(job, w) && w.backend(Sdp.Rewritten(job.sdp, job.candidates)) == Some(answer)
    ensures var t, cs := Negotiated(job, w), Sdp.CandidatesIn(answer); var n := |Trickled(cs, job.key, w, 2)|;
      if !w.delivered(1) then |t| == 2
      else
        && |t| >= 2 + n && n <= |cs|
        && (forall i :: 0 <= i < n ==>
              t[2 + i] == Send(Signal(Candidate, job.key.connectionID, cs[i], job.key.networkID)))
        && t[2 + n..] == if Identity(job, w).Some? && w.records
             then [Join(Identity(job, w).value.xuid, Identity(job, w).value.name)] else []
  {
    hide Refused, Identity, Sdp.CandidatesIn, Sdp.Rewritten;
    var sent := Trickled(Sdp.CandidatesIn(answer), job.key, w, 2);
    TrickledAre(Sdp.CandidatesIn(answer), job.key, w, 2);
    if w.delivered(1) {
      assert forall i :: 0 <= i < |sent| ==> Negotiated(job, w)[2 + i] == sent[i];
    }
  }

  /** The client is told exactly one outcome, and every signal goes to the connection the offer came
      from. */
  lemma OneOutcome(job: Norelay.Job, w: World)
    ensures var t := Negotiated(job, w);
      && (exists i :: 0 <= i < |t| && Terminal(t[i]) && forall j :: 0 <= j < |t| && j != i ==> !Terminal(t[j]))
      && (forall i :: 0 <= i < |t| && t[i].Send? ==> t[i].signal.Key() == job.key)
  {
    var t := Negotiated(job, w);
    forall i | 2 <= i < |t| ensures !Terminal(t[i]) && (t[i].Send? ==> t[i].signal.Key() == job.key) {
      AfterAnswer(job, w, i);
    }
    assert Terminal(if Refused(job, w) then t[0] else t[1]);
  }

  /** The backend gets at most one request, first, and with an allowlist only one that a player on it vouches for:
      in the client's own words, and in those that are posted. */
  lemma OneRequest(job: Norelay.Job, w: World, i: nat)
    requires i < |Negotiated(job, w)| && Negotiated(job, w)[i].Post?
    ensures i == 0 && Negotiated(job, w)[i].body == Sdp.Rewritten(job.sdp, job.candidates)
    ensures Welcome(job.sdp, w)
    ensures All(job.candidates, Sdp.OneLine) ==> Welcome(Negotiated(job, w)[i].body, w)
  {
    AnswerIsTheBackends(job, w);
    hide Negotiated, IsVouchedFor, Sdp.Rewritten;
    if All(job.candidates, Sdp.OneLine) && w.allow.Some? { PostedIsVouchedFor(job, w.verifier.value); }
  }

  lemma PostedIsVouchedFor(job: Norelay.Job, crypto: Crypto)
    requires All(job.candidates, Sdp.OneLine)
    ensures forall p :: IsVouchedFor(job.sdp, crypto, p) <==>
      IsVouchedFor(Sdp.Rewritten(job.sdp, job.candidates), crypto, p)
  {
    SamePlayerAfterRewrite(job.sdp, job.candidates, crypto);
    hide *;
    forall p ensures IsVouchedFor(job.sdp, crypto, p) <==>
      IsVouchedFor(Sdp.Rewritten(job.sdp, job.candidates), crypto, p)
    {
      VerifyOfferIff(job.sdp, crypto, p);
      VerifyOfferIff(Sdp.Rewritten(job.sdp, job.candidates), crypto, p);
    }
  }

  /** Candidates follow only an answer that got through, in the answer's own order; a join is recorded
      at most once, last, after such an answer, and for the verified player only. */
  lemma OnlyAfterAnswer(job: Norelay.Job, w: World, i: nat)
    requires i < |Negotiated(job, w)|
    ensures var t := Negotiated(job, w); var player := Identity(job, w);
      && (t[i].Send? && t[i].signal.typ.Candidate? ==>
            i >= 2 && Answered(t, w) && i - 2 < |Sdp.CandidatesIn(t[1].signal.data)|
            && t[i].signal.data == Sdp.CandidatesIn(t[1].signal.data)[i - 2])
      && (t[i].Join? ==>
            i >= 2 && i == |t| - 1 && Answered(t, w)
            && player.Some? && t[i] == Join(player.value.xuid, player.value.name))
  {
    if i >= 2 { AfterAnswer(job, w, i); }
  }

  /** Whoever verifies the posted offer sees the player this process saw, whatever it trickled. */
  lemma PostedOfferShowsTheSamePlayer(job: Norelay.Job, w: World, i: nat)
    requires All(job.candidates, Sdp.OneLine) && w.verifier.Some?
    requires i < |Negotiated(job, w)| && Negotiated(job, w)[i].Post?
    ensures VerifyOffer(Negotiated(job, w)[i].body, w.verifier.value) == Identity(job, w)
  {
    OneRequest(job, w, i);
    SamePlayerAfterRewrite(job.sdp, job.candidates, w.verifier.value);
  }
}
