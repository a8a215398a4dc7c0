/** The login loop of a proxied connection: what a successful login implies, and that no packet
    around it is lost or reordered. */
module LoginLoop {
  import opened GoStrings

  /** The wire bytes of one packet. */
  type Bytes = seq<bv8>

  datatype Status = LoginSuccess | PlayerSpawn | LoginFailedClient | LoginFailedServer | OtherStatus(code: int)

  datatype Packet =
    | RequestNetworkSettings
    | NetworkSettings(algorithm: nat)
    | Login(version: int, request: string)
    | ServerToClientHandshake(jwt: string)
    | ClientToServerHandshake
    | Disconnect(message: string)
    | PlayStatus(status: Status)
    | PassThrough

  /** What the header and the packet pool make of some bytes. */
  datatype Decoded = BadHeader | NotInPool | BadBody | Known(pk: Packet)

  datatype Request = Unparsed | Parsed(identity: string, xboxAuthenticated: bool)

  /** Decoding, login parsing, cryptography and the network, which are not part of this model: sends
      says whether the n-th packet this end writes goes out. */
  datatype World = World(
    decode: Bytes -> Decoded,
    parse: string -> Request,
    knownCompression: nat -> bool,
    validHandshake: string -> bool,
    sends: nat -> bool)

  datatype Config = Config(world: World, nethernet: bool, authEnabled: bool, clientEncryption: bool, hasLogin: bool)

  datatype Failure =
    | ReadFailed | HeaderFailed | BodyFailed | NotForClients | SettingsNotSent | UnknownCompression
    | LoginUnparsed | NotXboxAuthenticated | EncryptionFailed | HandshakeInvalid | Disconnected(message: string)
    | OutdatedClient | OutdatedServer | OtherPlayStatus(code: int)
  {
    /** The failures on which ReadLoop closes the connection itself. */
    predicate Closes() {
      ReadFailed? || HeaderFailed? || BodyFailed? || NotForClients? || SettingsNotSent? || UnknownCompression?
    }
  }

  datatype Verdict = Continue | Done | Fail(failure: Failure)

  datatype LoginState = LoginState(
    deferred: seq<Bytes>, encrypted: bool, identity: Option<string>, rawLogin: Option<Bytes>, written: nat)

  // ---------------------------------------------------------------------------------------------
  // One packet

  predicate Forbidden(st: LoginState, pk: Packet) {
    || pk.ServerToClientHandshake? || pk.NetworkSettings? || pk.PlayStatus?
    || (pk.ClientToServerHandshake? && !st.encrypted)
  }

  function IdentityOf(r: Request): Option<string> {
    if r.Parsed? then Some(r.identity) else None
  }

  function AfterLogin(c: Config, st: LoginState, request: string): (LoginState, Verdict) {
    var r := c.world.parse(request);
    var st' := st.(identity := IdentityOf(r));
    if r.Unparsed? then (st', Fail(LoginUnparsed))
    else if !r.xboxAuthenticated && c.authEnabled then (st'.(written := st.written + 1), Fail(NotXboxAuthenticated))
    else if c.nethernet && !c.clientEncryption then (st', Continue)
    else if !c.world.sends(st.written) then (st'.(written := st.written + 1), Fail(EncryptionFailed))
    else (st'.(written := st.written + 1, encrypted := true), Continue)
  }

  function AfterPacket(c: Config, st: LoginState, raw: Bytes, pk: Packet): (LoginState, Verdict) {
    match pk
    case RequestNetworkSettings =>
      (st.(written := st.written + 1), if c.world.sends(st.written) then Continue else Fail(SettingsNotSent))
    case NetworkSettings(algorithm) =>
      if !c.world.knownCompression(algorithm) then (st, Fail(UnknownCompression))
      else (if c.hasLogin then st.(written := st.written + 1) else st, Continue)
    case Login(_, request) =>
      var (st', v) := AfterLogin(c, st, request);
      if v.Fail? || !c.nethernet then (st', v)
      else (st'.(rawLogin := Some(raw)), if st'.encrypted then Continue else Done)
    case ServerToClientHandshake(jwt) =>
      if c.world.validHandshake(jwt) then (st.(encrypted := true, written := st.written + 1), Done)
      else (st.(encrypted := true), Fail(HandshakeInvalid))
    case ClientToServerHandshake => (st, Done)
    case Disconnect(message) => (st, Fail(Disconnected(message)))
    case PlayStatus(status) =>
      (match status
       case LoginSuccess => (st.(deferred := st.deferred + [raw]), Done)
       case PlayerSpawn => (st.(deferred := st.deferred + [raw]), Done)
       case LoginFailedClient => (st, Fail(OutdatedClient))
       case LoginFailedServer => (st, Fail(OutdatedServer))
       case OtherStatus(code) => (st, Fail(OtherPlayStatus(code))))
    case PassThrough => (st.(deferred := st.deferred + [raw]), Continue)
  }

  function AfterBytes(c: Config, st: LoginState, raw: Bytes): (LoginState, Verdict) {
    match c.world.decode(raw)
    case BadHeader => (st, Fail(HeaderFailed))
    case NotInPool => (st, Continue)
    case BadBody => (st, Fail(BodyFailed))
    case Known(pk) =>
      if c.nethernet && Forbidden(st, pk) then (st, Fail(NotForClients)) else AfterPacket(c, st, raw, pk)
  }

  /** One packet after the other until one ends the login; rest are the packets after that one. */
  datatype Scanned = Scanned(st: LoginState, verdict: Verdict, rest: seq<Bytes>)

  function Scan(c: Config, st: LoginState, packets: seq<Bytes>): Scanned
    decreases |packets|
  {
    if packets == [] then Scanned(st, Continue, [])
    else
      var (st', v) := AfterBytes(c, st, packets[0]);
      if v.Continue? then Scan(c, st', packets[1..]) else Scanned(st', v, packets[1..])
  }

  lemma ScanFirst(c: Config, st: LoginState, packets: seq<Bytes>)
    requires packets != []
    ensures var (st', v) := AfterBytes(c, st, packets[0]);
      Scan(c, st, packets) == if v.Continue? then Scan(c, st', packets[1..]) else Scanned(st', v, packets[1..])
  {}

  lemma ScanNothing(c: Config, st: LoginState)
    ensures Scan(c, st, []) == Scanned(st, Continue, [])
  {}

  lemma {:induction false} ScanAppend(c: Config, st: LoginState, a: seq<Bytes>, b: seq<Bytes>)
    ensures var s := Scan(c, st, a);
      Scan(c, st, a + b) == if s.verdict.Continue? then Scan(c, s.st, b) else s.(rest := s.rest + b)
    decreases |a|
  {
    if a == [] {
      assert a + b == b;
    } else {
      var (st', v) := AfterBytes(c, st, a[0]);
      ScanAppend(c, st', a[1..], b);
      assert (a + b)[1..] == a[1..] + b;
    }
  }

  function Flat(batches: seq<seq<Bytes>>): seq<Bytes> {
    if batches == [] then [] else batches[0] + Flat(batches[1..])
  }

  // ---------------------------------------------------------------------------------------------
  // The connection

  class ProxyConn {
    const config: Config
    var deferredPackets: seq<Bytes>
    var loginDone: bool
    var encryptionEnabled: bool
    var identityData: Option<string>
    var rawLoginPacket: Option<Bytes>
    var closed: bool
    var written: nat

    /** What the decoder will still yield before it fails. */
    var incoming: seq<seq<Bytes>>

    constructor (config: Config, incoming: seq<seq<Bytes>>)
      ensures this.config == config && this.incoming == incoming && !loginDone && !closed
      ensures State() == LoginState([], false, None, None, 0)
    {
      this.config, this.incoming := config, incoming;
      deferredPackets, loginDone, encryptionEnabled, identityData, rawLoginPacket := [], false, false, None, None;
      closed, written := false, 0;
    }

    function State(): LoginState
      reads this
    {
      LoginState(deferredPackets, encryptionEnabled, identityData, rawLoginPacket, written)
    }

    /** The batches that later calls of ReadPackets return, one after the other. */
    function Upcoming(): seq<seq<Bytes>>
      reads this
    {
      if loginDone && deferredPackets != [] then [deferredPackets] + incoming else incoming
    }

    /** None is the decoder's error. */
    method ReadPackets() returns (packets: Option<seq<Bytes>>)
      modifies this`deferredPackets, this`incoming
      ensures packets == None ==> old(Upcoming()) == [] && Upcoming() == []
      ensures packets.Some? ==> old(Upcoming()) == [packets.value] + Upcoming()
      ensures !loginDone ==> deferredPackets == old(deferredPackets)
    {
      if |deferredPackets| > 0 && loginDone {
        packets := Some(deferredPackets);
        deferredPackets := [];
        return;
      }
      if incoming == [] {
        return None;
      }
      packets := Some(incoming[0]);
      incoming := incoming[1..];
    }

    method WritePacket() returns (ok: bool)
      modifies this`written
      ensures ok == config.world.sends(old(written)) && written == old(written) + 1
    {
      ok := config.world.sends(written);
      written := written + 1;
    }

    method CheckClientPacket(pk: Packet) returns (ok: bool)
      ensures ok == !Forbidden(State(), pk)
    {
      match pk
      case ServerToClientHandshake(_) => return false;
      case NetworkSettings(_) => return false;
      case PlayStatus(_) => return false;
      case ClientToServerHandshake => return encryptionEnabled;
      case _ => return true;
    }

    method HandleLogin(request: string) returns (failed: Option<Failure>)
      modifies this`identityData, this`written, this`encryptionEnabled
      ensures var verdict := if failed == None then Continue else Fail(failed.value);
        (State(), verdict) == AfterLogin(config, old(State()), request)
    {
      var r := config.world.parse(request);
      identityData := IdentityOf(r);
      if r.Unparsed? {
        return Some(LoginUnparsed);
      }
      if !r.xboxAuthenticated && config.authEnabled {
        var _ := WritePacket();
        return Some(NotXboxAuthenticated);
      }
      if !config.nethernet || config.clientEncryption {
        var ok := WritePacket();
        if !ok {
          return Some(EncryptionFailed);
        }
        encryptionEnabled := true;
      }
      return None;
    }

    /** The body of the inner loop, up to the point where the rest of the batch is set aside. */
    method HandleBytes(pkBytes: Bytes) returns (verdict: Verdict)
      modifies this`deferredPackets, this`encryptionEnabled, this`identityData, this`rawLoginPacket
      modifies this`written, this`loginDone
      ensures (State(), verdict) == AfterBytes(config, old(State()), pkBytes)
      ensures loginDone == (old(loginDone) || verdict.Done?)
    {
      var decoded := config.world.decode(pkBytes);
      if decoded.BadHeader? {
        return Fail(HeaderFailed);
      }
      if decoded.NotInPool? {
        return Continue;
      }
      if decoded.BadBody? {
        return Fail(BodyFailed);
      }
      if config.nethernet {
        var ok := CheckClientPacket(decoded.pk);
        if !ok {
          return Fail(NotForClients);
        }
      }
      verdict := HandlePacket(pkBytes, decoded.pk);
    }

    /** The switch on the packet type. */
    method HandlePacket(pkBytes: Bytes, pk: Packet) returns (verdict: Verdict)
      modifies this`deferredPackets, this`encryptionEnabled, this`identityData, this`rawLoginPacket
      modifies this`written, this`loginDone
      ensures (State(), verdict) == AfterPacket(config, old(State()), pkBytes, pk)
      ensures loginDone == (old(loginDone) || verdict.Done?)
    {
      verdict := Continue;
      match pk
      case RequestNetworkSettings =>
        var ok := WritePacket();
        if !ok {
          return Fail(SettingsNotSent);
        }
      case NetworkSettings(algorithm) =>
        if !config.world.knownCompression(algorithm) {
          return Fail(UnknownCompression);
        }
        if config.hasLogin {
          var _ := WritePacket();
        }
      case Login(_, request) =>
        var failed := HandleLogin(request);
        if failed.Some? {
          return Fail(failed.value);
        }
        if config.nethernet {
          rawLoginPacket := Some(pkBytes);
          if !encryptionEnabled {
            loginDone, verdict := true, Done;
          }
        }
      case ServerToClientHandshake(jwt) =>
        encryptionEnabled := true;
        if !config.world.validHandshake(jwt) {
          return Fail(HandshakeInvalid);
        }
        var _ := WritePacket();
        loginDone, verdict := true, Done;
      case ClientToServerHandshake =>
        loginDone, verdict := true, Done;
      case Disconnect(message) =>
        return Fail(Disconnected(message));
      case PlayStatus(status) =>
        if status.LoginSuccess? || status.PlayerSpawn? {
          deferredPackets := deferredPackets + [pkBytes];
          loginDone, verdict := true, Done;
        } else if status.LoginFailedClient? {
          return Fail(OutdatedClient);
        } else if status.LoginFailedServer? {
          return Fail(OutdatedServer);
        } else {
          return Fail(OtherPlayStatus(status.code));
        }
      case PassThrough =>
        deferredPackets := deferredPackets + [pkBytes];
    }

    method DeferRemaining(rest: seq<Bytes>)
      modifies this`deferredPackets
      ensures deferredPackets == old(deferredPackets) + rest
    {
      if |rest| == 0 {
        return;
      }
      deferredPackets := deferredPackets + rest;
    }

    /** The inner loop: one batch, up to the packet that ends the login; on success the rest of the
        batch is set aside. */
    method ReadBatch(pks: seq<Bytes>) returns (verdict: Verdict)
      requires !loginDone
      modifies this`deferredPackets, this`encryptionEnabled, this`identityData, this`rawLoginPacket
      modifies this`written, this`loginDone
      ensures var s := Scan(config, old(State()), pks);
        && verdict == s.verdict && loginDone == verdict.Done?
        && State() == if verdict.Done? then s.st.(deferred := s.st.deferred + s.rest) else s.st
    {
      assert pks[0..] == pks;
      for i := 0 to |pks|
        invariant !loginDone && Scan(config, old(State()), pks) == Scan(config, State(), pks[i..])
      {
        assert pks[i..][0] == pks[i] && pks[i..][1..] == pks[i + 1..];
        verdict := HandleBytes(pks[i]);
        if !verdict.Continue? {
          if verdict.Done? {
            DeferRemaining(pks[i + 1..]);
          }
          return;
        }
      }
      return Continue;
    }

    /** How the loop ends, with s what scanning all the packets of the connection gives. */
    ghost predicate Ended(failed: Option<Failure>, wasClosed: bool, s: Scanned)
      reads this
    {
      match s.verdict
      case Done => failed == None && loginDone && closed == wasClosed && State().(deferred := s.st.deferred) == s.st
                   && Flat(Upcoming()) == s.st.deferred + s.rest
      case Fail(failure) => failed == Some(failure) && !loginDone && State() == s.st
                            && (closed <==> wasClosed || failure.Closes())
      case Continue => failed == Some(ReadFailed) && !loginDone && State() == s.st && closed
    }

    lemma UpcomingIsDeferredFirst()
      requires loginDone
      ensures Flat(Upcoming()) == deferredPackets + Flat(incoming)
    {
      FlatFirst(deferredPackets, incoming);
    }

    /** The loop does what scanning the packets one by one would do, whatever batches they come in; on
        success everything behind the packet that completed the login is still to be read. */
    method ReadLoop() returns (failed: Option<Failure>)
      requires !loginDone
      modifies this
      ensures Ended(failed, old(closed), Scan(config, old(State()), Flat(old(incoming))))
    {
      ghost var whole := Scan(config, State(), Flat(incoming));
      while true
        invariant !loginDone && closed == old(closed)
        invariant whole == Scan(config, State(), Flat(incoming))
        decreases |incoming|
      {
        var packets := ReadPackets();
        if packets == None {
          closed := true;
          return Some(ReadFailed);
        }
        var pks := packets.value;
        FlatFirst(pks, incoming);
        ScanAppend(config, State(), pks, Flat(incoming));
        ghost var s := Scan(config, State(), pks);
        var verdict := ReadBatch(pks);
        if verdict.Done? {
          UpcomingIsDeferredFirst();
          Associate(s.st.deferred, s.rest, Flat(incoming));
          return None;
        }
        if verdict.Fail? {
          if verdict.failure.Closes() {
            closed := true;
          }
          return Some(verdict.failure);
        }
      }
    }
  }

  lemma Associate(a: seq<Bytes>, b: seq<Bytes>, c: seq<Bytes>)
    ensures (a + b) + c == a + (b + c)
  {}

  lemma FlatFirst(first: seq<Bytes>, later: seq<seq<Bytes>>)
    ensures Flat([first] + later) == first + Flat(later)
  {
    assert ([first] + later)[1..] == later;
  }

  // ---------------------------------------------------------------------------------------------
  // What a successful login implies

  predicate PassesThrough(c: Config, raw: Bytes) {
    c.world.decode(raw) == Known(PassThrough)
  }

  function PassedThrough(c: Config, packets: seq<Bytes>): seq<Bytes> {
    if packets == [] then []
    else if PassesThrough(c, packets[0]) then [packets[0]] + PassedThrough(c, packets[1..])
    else PassedThrough(c, packets[1..])
  }

  predicate IsPlayStatus(c: Config, raw: Bytes) {
    c.world.decode(raw).Known? && c.world.decode(raw).pk.PlayStatus?
  }

  /** A successful login sets aside, in order and without loss or repeat, the known pass-through
      packets before the one that completed it, that one only if it is a PlayStatus, and leaves
      everything after it. */
  lemma {:induction false} NothingLostAroundLogin(c: Config, st: LoginState, packets: seq<Bytes>)
    returns (before: seq<Bytes>, last: Bytes)
    requires Scan(c, st, packets).verdict.Done?
    ensures packets == before + [last] + Scan(c, st, packets).rest
    ensures Scan(c, st, packets).st.deferred ==
      st.deferred + PassedThrough(c, before) + if IsPlayStatus(c, last) then [last] else []
    decreases |packets|
  {
    hide Scan, AfterBytes, PassedThrough, PassesThrough, IsPlayStatus;
    if packets == [] { ScanNothing(c, st); }
    var raw, later := packets[0], packets[1..];
    var (st', v) := AfterBytes(c, st, raw);
    ScanFirst(c, st, packets);
    DeferredStep(c, st, raw);
    assert packets == [raw] + later;
    if v.Continue? {
      before, last := NothingLostAroundLogin(c, st', later);
      PassedThroughFirst(c, raw, before);
      Associate(st.deferred, if PassesThrough(c, raw) then [raw] else [], PassedThrough(c, before));
      before := [raw] + before;
    } else {
      before, last := [], raw;
      NonePassedThrough(c);
      assert st.deferred + [] == st.deferred;
    }
  }

  lemma NonePassedThrough(c: Config)
    ensures PassedThrough(c, []) == []
  {}

  lemma DeferredStep(c: Config, st: LoginState, raw: Bytes)
    ensures var (st', v) := AfterBytes(c, st, raw);
      && (v.Continue? ==> st'.deferred == st.deferred + if PassesThrough(c, raw) then [raw] else [])
      && (v.Done? ==> st'.deferred == st.deferred + if IsPlayStatus(c, raw) then [raw] else [])
  {
    assert st.deferred + [] == st.deferred;
  }

  lemma PassedThroughFirst(c: Config, raw: Bytes, later: seq<Bytes>)
    ensures PassedThrough(c, [raw] + later) == (if PassesThrough(c, raw) then [raw] else []) + PassedThrough(c, later)
  {
    assert ([raw] + later)[1..] == later;
  }

  /** The last packet that is a Login, if any. */
  function LastLogin(c: Config, seen: seq<Bytes>): Option<Bytes> {
    if seen == [] then None
    else
      var raw := seen[|seen| - 1];
      if c.world.decode(raw).Known? && c.world.decode(raw).pk.Login? then Some(raw)
      else LastLogin(c, seen[..|seen| - 1])
  }

  predicate IsLoginOf(c: Config, raw: Bytes, identity: Option<string>) {
    && c.world.decode(raw).Known? && c.world.decode(raw).pk.Login?
    && c.world.parse(c.world.decode(raw).pk.request).Parsed?
    && (c.authEnabled ==> c.world.parse(c.world.decode(raw).pk.request).xboxAuthenticated)
    && identity == Some(c.world.parse(c.world.decode(raw).pk.request).identity)
  }

  /** The state of a client-facing connection after the packets seen so far, none of which ended the
      login. */
  ghost predicate ClientSide(c: Config, st: LoginState, seen: seq<Bytes>) {
    && st.rawLogin == LastLogin(c, seen)
    && st.encrypted == st.rawLogin.Some?
    && (st.rawLogin.Some? ==> c.clientEncryption && IsLoginOf(c, st.rawLogin.value, st.identity))
  }

  predicate IsClientHandshake(c: Config, raw: Bytes) {
    c.world.decode(raw) == Known(ClientToServerHandshake)
  }

  lemma LastLoginSnoc(c: Config, seen: seq<Bytes>, raw: Bytes)
    ensures LastLogin(c, seen + [raw]) ==
      if c.world.decode(raw).Known? && c.world.decode(raw).pk.Login? then Some(raw) else LastLogin(c, seen)
  {
    assert (seen + [raw])[..|seen + [raw]| - 1] == seen;
  }

  /** The state in which the packet last, after the others seen, completes a client-facing login: it keeps
      the last Login the client sent. With client encryption on, encryption is on and last is the
      client's handshake after that Login; with encryption off, last is the Login itself. */
  ghost predicate Genuine(c: Config, seen: seq<Bytes>, last: Bytes, rawLogin: Option<Bytes>,
                          identity: Option<string>, encrypted: bool) {
    && rawLogin.Some? && rawLogin == LastLogin(c, seen + [last])
    && IsLoginOf(c, rawLogin.value, identity)
    && encrypted == c.clientEncryption
    && (if c.clientEncryption then IsClientHandshake(c, last) && LastLogin(c, seen).Some? else rawLogin == Some(last))
  }

  lemma ClientSideStep(c: Config, st: LoginState, seen: seq<Bytes>, raw: Bytes)
    requires c.nethernet && ClientSide(c, st, seen)
    ensures var (st', v) := AfterBytes(c, st, raw);
      && (v.Continue? ==> ClientSide(c, st', seen + [raw]))
      && (v.Done? ==> Genuine(c, seen, raw, st'.rawLogin, st'.identity, st'.encrypted))
  {
    LastLoginSnoc(c, seen, raw);
  }

  /** A client-facing login succeeds only on the last Login the client sent, parsed and, with
      authentication on, authenticated to Xbox Live: its bytes and its identity are the ones kept. */
  lemma {:induction false} ClientLoginIsGenuine(c: Config, st: LoginState, seen: seq<Bytes>, packets: seq<Bytes>)
    returns (before: seq<Bytes>, last: Bytes)
    requires c.nethernet && ClientSide(c, st, seen) && Scan(c, st, packets).verdict.Done?
    ensures packets == before + [last] + Scan(c, st, packets).rest
    ensures var end := Scan(c, st, packets).st;
      Genuine(c, seen + before, last, end.rawLogin, end.identity, end.encrypted)
    decreases |packets|
  {
    hide Scan, AfterBytes, ClientSide, Genuine;
    if packets == [] { ScanNothing(c, st); }
    var raw, later := packets[0], packets[1..];
    var (st', v) := AfterBytes(c, st, raw);
    ScanFirst(c, st, packets);
    ClientSideStep(c, st, seen, raw);
    assert packets == [raw] + later;
    if v.Continue? {
      before, last := ClientLoginIsGenuine(c, st', seen + [raw], later);
      assert (seen + [raw]) + before == seen + ([raw] + before);
      before := [raw] + before;
    } else {
      before, last := [], raw;
      assert seen + [] == seen;
    }
  }

  const NEW_CONNECTION := LoginState([], false, None, None, 0)

  /** A new connection is in that state before anything was read. */
  lemma NewConnectionIsClientSide(c: Config)
    ensures ClientSide(c, NEW_CONNECTION, [])
  {}

  lemma RepliesOfNewConnection(c: Config, packets: seq<Bytes>) returns (read: seq<Bytes>)
    ensures var s := Scan(c, NEW_CONNECTION, packets);
      packets == read + s.rest && s.st.written == Replies(c, read) && (s.verdict.Continue? ==> read == packets)
  {
    NewConnectionKeeps(c);
    read := RepliesAreWritten(c, NEW_CONNECTION, [], packets);
    assert [] + read == read;
    ScanToTheEnd(c, NEW_CONNECTION, packets);
    assert read + [] == read;
  }

  lemma {:induction false} ScanToTheEnd(c: Config, st: LoginState, packets: seq<Bytes>)
    ensures Scan(c, st, packets).verdict.Continue? ==> Scan(c, st, packets).rest == []
    decreases |packets|
  {
    if packets != [] { ScanToTheEnd(c, AfterBytes(c, st, packets[0]).0, packets[1..]); }
  }

  lemma SameFront(a: seq<Bytes>, b: seq<Bytes>, rest: seq<Bytes>)
    requires a + rest == b + rest
    ensures a == b
  {
    assert |a| == |b| && a == (a + rest)[..|a|] && b == (b + rest)[..|b|];
  }

  lemma FailureOfNewConnection(c: Config, packets: seq<Bytes>) returns (before: seq<Bytes>)
    requires !Scan(c, NEW_CONNECTION, packets).verdict.Done?
    ensures Open(c, before)
    ensures var s := Scan(c, NEW_CONNECTION, packets);
      match s.verdict
      case Continue => packets == before
      case Done => false
      case Fail(f) =>
        f != ReadFailed && DecidedBy(packets, before, s.rest) && FailsWith(c, before, packets[|before|], f)
  {
    NewConnectionKeeps(c);
    before := FirstEndDecides(c, NEW_CONNECTION, [], packets);
    assert [] + before == before;
    hide Scan, Open, Keeps, Completes;
  }

  lemma SameCut(a: seq<Bytes>, x: Bytes, b: seq<Bytes>, y: Bytes, rest: seq<Bytes>)
    requires a + [x] + rest == b + [y] + rest
    ensures a == b && x == y
  {
    assert |a| == |b|;
    assert a == (a + [x] + rest)[..|a|] && b == (b + [y] + rest)[..|b|];
    assert x == (a + [x] + rest)[|a|] && y == (b + [y] + rest)[|b|];
  }

  // ---------------------------------------------------------------------------------------------
  // What ends a login, and how

  predicate IsLogin(c: Config, raw: Bytes) {
    c.world.decode(raw).Known? && c.world.decode(raw).pk.Login?
  }

  /** Every accepted Login turns encryption on, but not for a client if that is switched off. */
  predicate Encrypts(c: Config) {
    !c.nethernet || c.clientEncryption
  }

  predicate EncryptedBy(c: Config, seen: seq<Bytes>) {
    Encrypts(c) && exists i :: 0 <= i < |seen| && IsLogin(c, seen[i])
  }

  predicate AcceptedLogin(c: Config, raw: Bytes) {
    && IsLogin(c, raw) && c.world.parse(c.world.decode(raw).pk.request).Parsed?
    && (c.authEnabled ==> c.world.parse(c.world.decode(raw).pk.request).xboxAuthenticated)
  }

  predicate RefusedLogin(c: Config, raw: Bytes) {
    && IsLogin(c, raw) && c.world.parse(c.world.decode(raw).pk.request).Parsed?
    && c.authEnabled && !c.world.parse(c.world.decode(raw).pk.request).xboxAuthenticated
  }

  /** This end writes a packet for this one: its network settings, the Login it was waiting to send, its handshake
      or the answer to one, or a Disconnect for a player who is not authenticated. */
  predicate Replied(c: Config, raw: Bytes) {
    var d := c.world.decode(raw);
    && d.Known?
    && (|| d.pk.RequestNetworkSettings?
        || (d.pk.NetworkSettings? && !c.nethernet && c.hasLogin && c.world.knownCompression(d.pk.algorithm))
        || (AcceptedLogin(c, raw) && Encrypts(c)) || RefusedLogin(c, raw)
        || (d.pk.ServerToClientHandshake? && !c.nethernet && c.world.validHandshake(d.pk.jwt)))
  }

  /** How many packets this end has written in reply to those seen. */
  function Replies(c: Config, seen: seq<Bytes>): nat {
    if seen == [] then 0
    else Replies(c, seen[..|seen| - 1]) + if Replied(c, seen[|seen| - 1]) then 1 else 0
  }

  /** The packet completes the login after those seen. On the dialing side it says that the server lets the player
      in, or is a handshake; on the client's it is the accepted Login, or the client's handshake if it was asked
      for one. */
  predicate Completes(c: Config, seen: seq<Bytes>, raw: Bytes) {
    var d := c.world.decode(raw);
    if c.nethernet then
      || (AcceptedLogin(c, raw) && !c.clientEncryption)
      || (d == Known(ClientToServerHandshake) && EncryptedBy(c, seen))
    else
      || d == Known(PlayStatus(LoginSuccess)) || d == Known(PlayStatus(PlayerSpawn))
      || (d.Known? && d.pk.ServerToClientHandshake? && c.world.validHandshake(d.pk.jwt))
      || d == Known(ClientToServerHandshake)
  }

  /** The packet ends the login after those seen with this failure. */
  predicate FailsWith(c: Config, seen: seq<Bytes>, raw: Bytes, failure: Failure) {
    var d := c.world.decode(raw);
    match failure
    case ReadFailed => false
    case HeaderFailed => d.BadHeader?
    case BodyFailed => d.BadBody?
    case NotForClients =>
      c.nethernet && d.Known? && (|| d.pk.ServerToClientHandshake? || d.pk.NetworkSettings? || d.pk.PlayStatus?
                                  || (d.pk.ClientToServerHandshake? && !EncryptedBy(c, seen)))
    case SettingsNotSent => d == Known(RequestNetworkSettings) && !c.world.sends(Replies(c, seen))
    case UnknownCompression =>
      !c.nethernet && d.Known? && d.pk.NetworkSettings? && !c.world.knownCompression(d.pk.algorithm)
    case LoginUnparsed => IsLogin(c, raw) && c.world.parse(d.pk.request).Unparsed?
    case NotXboxAuthenticated => RefusedLogin(c, raw)
    case EncryptionFailed => AcceptedLogin(c, raw) && Encrypts(c) && !c.world.sends(Replies(c, seen))
    case HandshakeInvalid =>
      !c.nethernet && d.Known? && d.pk.ServerToClientHandshake? && !c.world.validHandshake(d.pk.jwt)
    case Disconnected(message) => d == Known(Disconnect(message))
    case OutdatedClient => !c.nethernet && d == Known(PlayStatus(LoginFailedClient))
    case OutdatedServer => !c.nethernet && d == Known(PlayStatus(LoginFailedServer))
    case OtherPlayStatus(code) => !c.nethernet && d == Known(PlayStatus(OtherStatus(code)))
  }

  ghost predicate Ends(c: Config, seen: seq<Bytes>, raw: Bytes) {
    Completes(c, seen, raw) || exists failure :: FailsWith(c, seen, raw, failure)
  }

  /** None of the packets ends the login when its turn comes. */
  ghost predicate Open(c: Config, seen: seq<Bytes>) {
    forall i :: 0 <= i < |seen| ==> !Ends(c, seen[..i], seen[i])
  }

  /** A packet completes a login or fails it in one way, never both. */
  lemma OneVerdict(c: Config, seen: seq<Bytes>, raw: Bytes, one: Failure, two: Failure)
    requires FailsWith(c, seen, raw, one)
    ensures !Completes(c, seen, raw)
    ensures FailsWith(c, seen, raw, two) ==> one == two
  {
    hide EncryptedBy, Replies;
  }

  /** The state after packets that did not end the login. */
  ghost predicate Keeps(c: Config, st: LoginState, seen: seq<Bytes>) {
    st.encrypted == EncryptedBy(c, seen) && st.written == Replies(c, seen) && (!c.nethernet ==> st.rawLogin == None)
  }

  lemma EncryptedMeans(c: Config, seen: seq<Bytes>)
    ensures EncryptedBy(c, seen) ==> Encrypts(c)
  {}

  lemma EncryptedOneMore(c: Config, seen: seq<Bytes>, raw: Bytes)
    ensures EncryptedBy(c, seen + [raw]) <==> EncryptedBy(c, seen) || (Encrypts(c) && IsLogin(c, raw))
  {
    hide IsLogin, Encrypts;
    var all := seen + [raw];
    assert all[|seen|] == raw && forall i :: 0 <= i < |seen| ==> all[i] == seen[i];
  }

  lemma RepliesOneMore(c: Config, seen: seq<Bytes>, raw: Bytes)
    ensures Replies(c, seen + [raw]) == Replies(c, seen) + if Replied(c, raw) then 1 else 0
  {
    hide Replied;
    var all := seen + [raw];
    assert all[..|all| - 1] == seen && all[|seen|] == raw;
  }

  /** What a packet does in such a state. */
  lemma VerdictOf(c: Config, st: LoginState, seen: seq<Bytes>, raw: Bytes)
    requires Keeps(c, st, seen)
    ensures match AfterBytes(c, st, raw).1
      case Continue => !Completes(c, seen, raw) && (forall f :: !FailsWith(c, seen, raw, f))
      case Done => Completes(c, seen, raw)
      case Fail(f) => FailsWith(c, seen, raw, f)
  {
    hide EncryptedBy, Replies;
    EncryptedMeans(c, seen);
  }

  lemma WrittenOf(c: Config, st: LoginState, seen: seq<Bytes>, raw: Bytes)
    requires Keeps(c, st, seen)
    ensures AfterBytes(c, st, raw).0.written == Replies(c, seen + [raw])
  {
    hide EncryptedBy, Replies;
    EncryptedMeans(c, seen);
    RepliesOneMore(c, seen, raw);
  }

  lemma EncryptionOf(c: Config, st: LoginState, seen: seq<Bytes>, raw: Bytes)
    requires Keeps(c, st, seen) && AfterBytes(c, st, raw).1.Continue?
    ensures var st' := AfterBytes(c, st, raw).0;
      st'.encrypted == EncryptedBy(c, seen + [raw]) && (!c.nethernet ==> st'.rawLogin == None)
  {
    hide EncryptedBy, Replies, Replied, RefusedLogin;
    EncryptedMeans(c, seen);
    EncryptedOneMore(c, seen, raw);
  }

  lemma StateOf(c: Config, st: LoginState, seen: seq<Bytes>, raw: Bytes)
    requires Keeps(c, st, seen) && AfterBytes(c, st, raw).1.Continue?
    ensures Keeps(c, AfterBytes(c, st, raw).0, seen + [raw])
  {
    WrittenOf(c, st, seen, raw);
    EncryptionOf(c, st, seen, raw);
    hide AfterBytes, EncryptedBy, Replies;
  }

  /** Dialing, a login that completes on the server's handshake, or after a Login, is encrypted. */
  lemma DialedState(c: Config, st: LoginState, seen: seq<Bytes>, raw: Bytes)
    requires !c.nethernet && Keeps(c, st, seen) && AfterBytes(c, st, raw).1.Done?
    ensures DialedOn(c, seen, raw, AfterBytes(c, st, raw).0)
  {
    hide EncryptedBy, Replies;
  }

  predicate DialedOn(c: Config, seen: seq<Bytes>, last: Bytes, st: LoginState) {
    && st.rawLogin == None
    && (st.encrypted <==> EncryptedBy(c, seen) || IsServerHandshake(c, last))
  }

  predicate IsServerHandshake(c: Config, raw: Bytes) {
    c.world.decode(raw).Known? && c.world.decode(raw).pk.ServerToClientHandshake?
  }

  /** The first packet that ends the login decides: the login succeeds exactly if that one completes it, and fails
      the way that one fails it. Without such a packet it goes on. */
  lemma {:induction false} FirstEndDecides(c: Config, st: LoginState, seen: seq<Bytes>, packets: seq<Bytes>)
    returns (before: seq<Bytes>)
    requires Keeps(c, st, seen) && Open(c, seen)
    ensures Open(c, seen + before)
    ensures var s := Scan(c, st, packets);
      match s.verdict
      case Continue => packets == before
      case Done => DecidedBy(packets, before, s.rest) && Completes(c, seen + before, packets[|before|])
        && (!c.nethernet ==> DialedOn(c, seen + before, packets[|before|], s.st))
      case Fail(f) => DecidedBy(packets, before, s.rest) && FailsWith(c, seen + before, packets[|before|], f)
    decreases |packets|
  {
    hide Scan, AfterBytes, Keeps, Completes, FailsWith, EncryptedBy, Open;
    if packets == [] {
      ScanNothing(c, st);
      before := [];
      assert seen + [] == seen;
    } else {
      var raw, later := packets[0], packets[1..];
      var (st', v) := AfterBytes(c, st, raw);
      ScanFirst(c, st, packets);
      VerdictOf(c, st, seen, raw);
      assert packets == [raw] + later;
      if v.Continue? {
        StateOf(c, st, seen, raw);
        OpenOneMore(c, seen, raw);
        before := FirstEndDecides(c, st', seen + [raw], later);
        assert (seen + [raw]) + before == seen + ([raw] + before);
        before := [raw] + before;
      } else {
        before := [];
        assert seen + [] == seen;
        if v.Done? && !c.nethernet { DialedState(c, st, seen, raw); }
      }
    }
  }

  /** What this end has written by then are its replies to the packets read. */
  lemma {:induction false} RepliesAreWritten(c: Config, st: LoginState, seen: seq<Bytes>, packets: seq<Bytes>)
    returns (read: seq<Bytes>)
    requires Keeps(c, st, seen)
    ensures var s := Scan(c, st, packets); packets == read + s.rest && s.st.written == Replies(c, seen + read)
    decreases |packets|
  {
    WrittenSoFar(c, st, seen);
    hide Scan, AfterBytes, Keeps;
    if packets == [] {
      ScanNothing(c, st);
      read := [];
      assert seen + [] == seen;
    } else {
      var raw, later := packets[0], packets[1..];
      var (st', v) := AfterBytes(c, st, raw);
      ScanFirst(c, st, packets);
      WrittenOf(c, st, seen, raw);
      assert packets == [raw] + later;
      read := [];
      if v.Continue? {
        StateOf(c, st, seen, raw);
        read := RepliesAreWritten(c, st', seen + [raw], later);
        assert (seen + [raw]) + read == seen + ([raw] + read);
      }
      read := [raw] + read;
    }
  }

  lemma WrittenSoFar(c: Config, st: LoginState, seen: seq<Bytes>)
    requires Keeps(c, st, seen)
    ensures st.written == Replies(c, seen)
  {}

  predicate DecidedBy(packets: seq<Bytes>, before: seq<Bytes>, rest: seq<Bytes>) {
    |before| < |packets| && packets == before + [packets[|before|]] + rest
  }

  lemma OpenOneMore(c: Config, seen: seq<Bytes>, raw: Bytes)
    requires Open(c, seen) && !Ends(c, seen, raw)
    ensures Open(c, seen + [raw])
  {
    hide Ends;
    var all := seen + [raw];
    forall i | 0 <= i < |all| ensures !Ends(c, all[..i], all[i]) {
      assert i < |seen| ==> all[..i] == seen[..i];
      assert all[..|seen|] == seen;
    }
  }

  lemma NewConnectionKeeps(c: Config)
    ensures Keeps(c, NEW_CONNECTION, []) && Open(c, [])
  {}

  /** A packet that never ends a login, as long as this end's replies go out. */
  predicate Quiet(c: Config, raw: Bytes) {
    match c.world.decode(raw)
    case NotInPool => true
    case Known(PassThrough) => true
    case Known(RequestNetworkSettings) => true
    case Known(NetworkSettings(algorithm)) => !c.nethernet && c.world.knownCompression(algorithm)
    case Known(Login(_, _)) => AcceptedLogin(c, raw) && Encrypts(c)
    case _ => false
  }

  lemma {:induction false} QuietIsOpen(c: Config, packets: seq<Bytes>)
    requires (forall n: nat :: c.world.sends(n)) && forall i :: 0 <= i < |packets| ==> Quiet(c, packets[i])
    ensures Open(c, packets)
  {
    forall i | 0 <= i < |packets| ensures !Ends(c, packets[..i], packets[i]) {
      hide EncryptedBy, Replies;
      assert Quiet(c, packets[i]);
    }
  }

  /** An ordinary login succeeds: the server's own handshake or its word that the player is in, after the packets
      that come before it, on the dialing side; on the client's, the Login, or the handshake after it. */
  lemma OrdinaryLoginSucceeds(c: Config, before: seq<Bytes>, last: Bytes, later: seq<Bytes>)
    requires (forall n: nat :: c.world.sends(n)) && forall i :: 0 <= i < |before| ==> Quiet(c, before[i])
    requires Completes(c, before, last)
    ensures var s := Scan(c, NEW_CONNECTION, before + [last] + later); s.verdict.Done? && s.rest == later
  {
    QuietIsOpen(c, before);
    hide *;
    CompletedLoginSucceeds(c, before, last, later);
  }

  lemma CompletedLoginSucceeds(c: Config, before: seq<Bytes>, last: Bytes, later: seq<Bytes>)
    requires Open(c, before) && Completes(c, before, last)
    ensures var s := Scan(c, NEW_CONNECTION, before + [last] + later); s.verdict.Done? && s.rest == later
  {
    hide *;
    var packets := before + [last] + later;
    var first, rest := EndOfNewConnection(c, packets);
    PartsAre(before, last, later);
    OneVerdictHere(c, before, last);
    IsEnd(c, before, last);
    OneEnd(c, packets, |before|, |first|);
  }

  lemma IsEnd(c: Config, seen: seq<Bytes>, raw: Bytes)
    requires Completes(c, seen, raw)
    ensures Ends(c, seen, raw)
  {}

  lemma PartsAre(before: seq<Bytes>, last: Bytes, later: seq<Bytes>)
    ensures var packets, n := before + [last] + later, |before|;
      packets[..n] == before && packets[n] == last && packets[n + 1..] == later
  {}

  /** The packets before the one that ends the login, and after it. */
  lemma EndOfNewConnection(c: Config, packets: seq<Bytes>) returns (before: seq<Bytes>, rest: seq<Bytes>)
    ensures var s, n := Scan(c, NEW_CONNECTION, packets), |before|;
      && n <= |packets| && before == packets[..n] && Open(c, before)
      && (n < |packets| ==>
            && Ends(c, before, packets[n]) && s.rest == packets[n + 1..]
            && (!s.verdict.Done? ==> exists f :: FailsWith(c, before, packets[n], f)))
  {
    NewConnectionKeeps(c);
    before := FirstEndDecides(c, NEW_CONNECTION, [], packets);
    rest := Scan(c, NEW_CONNECTION, packets).rest;
    assert [] + before == before;
    if |before| < |packets| { PartsAre(before, packets[|before|], rest); }
    hide Scan, Completes, FailsWith, Open;
  }

  /** There is one first packet that ends the login. */
  lemma OneEnd(c: Config, packets: seq<Bytes>, a: nat, b: nat)
    requires a < |packets| && Open(c, packets[..a]) && Ends(c, packets[..a], packets[a])
    requires b <= |packets| && Open(c, packets[..b]) && (b < |packets| ==> Ends(c, packets[..b], packets[b]))
    ensures a == b
  {
    hide Ends, Open;
    if a < b { OpenUpTo(c, packets, a, b); }
    if b < a { OpenUpTo(c, packets, b, a); }
  }

  lemma OpenUpTo(c: Config, packets: seq<Bytes>, a: nat, b: nat)
    requires a < b <= |packets| && Open(c, packets[..b])
    ensures !Ends(c, packets[..a], packets[a])
  {
    assert packets[..b][..a] == packets[..a] && packets[..b][a] == packets[a];
  }

  lemma OneVerdictHere(c: Config, seen: seq<Bytes>, raw: Bytes)
    requires Completes(c, seen, raw)
    ensures forall f :: !FailsWith(c, seen, raw, f)
  {
    forall f ensures !FailsWith(c, seen, raw, f) {
      if FailsWith(c, seen, raw, f) { OneVerdict(c, seen, raw, f, f); }
    }
  }

  /** All of it at once, for a new connection. */
  lemma LoginOfNewConnection(c: Config, packets: seq<Bytes>) returns (before: seq<Bytes>, last: Bytes)
    requires Scan(c, NEW_CONNECTION, packets).verdict.Done?
    ensures var s := Scan(c, NEW_CONNECTION, packets);
      && packets == before + [last] + s.rest
      && s.st.deferred == PassedThrough(c, before) + (if IsPlayStatus(c, last) then [last] else [])
      && Open(c, before) && Completes(c, before, last)
      && (c.nethernet ==> Genuine(c, before, last, s.st.rawLogin, s.st.identity, s.st.encrypted))
      && (!c.nethernet ==> DialedOn(c, before, last, s.st))
  {
    hide Scan, PassedThrough, IsPlayStatus, Genuine, ClientSide, Completes, Open, Keeps, DialedOn;
    before, last := NothingLostAroundLogin(c, NEW_CONNECTION, packets);
    assert [] + PassedThrough(c, before) == PassedThrough(c, before);
    NewConnectionKeeps(c);
    var first := FirstEndDecides(c, NEW_CONNECTION, [], packets);
    assert [] + first == first;
    SameCut(before, last, first, packets[|first|], Scan(c, NEW_CONNECTION, packets).rest);
    if c.nethernet {
      NewConnectionIsClientSide(c);
      var before', last' := ClientLoginIsGenuine(c, NEW_CONNECTION, [], packets);
      SameCut(before, last, before', last', Scan(c, NEW_CONNECTION, packets).rest);
      assert [] + before' == before';
    }
  }

  // ---------------------------------------------------------------------------------------------
  // A connection from its first packet to its last

  /** The reading half of pump: batch after batch until the connection fails. */
  method Pump(from: ProxyConn) returns (read: seq<Bytes>)
    modifies from`deferredPackets, from`incoming
    ensures read == Flat(old(from.Upcoming()))
  {
    read := [];
    while true
      invariant Flat(old(from.Upcoming())) == read + Flat(from.Upcoming())
      decreases |from.Upcoming()|
    {
      ghost var upcoming := from.Upcoming();
      var pks := from.ReadPackets();
      if pks == None {
        assert read + [] == read;
        return;
      }
      FlatFirst(pks.value, from.Upcoming());
      Associate(read, pks.value, Flat(from.Upcoming()));
      read := read + pks.value;
    }
  }

  /** A connection is made, logs in and is read to its end: what HandleConn and the dialer do with the
      packets that come in. The first packet that ends the login decides how. If it completes it, all that is read
      after it is, in order and without loss or repeat, the known pass-through packets before that one, that one
      only if it is a PlayStatus, and every packet after it; a client-facing connection has kept the last Login,
      and a dialing one is encrypted exactly if the server's handshake or a Login made it so. If it fails it, that is
      the failure. Either way this end has written what the packets up to that one call for. */
  method LoginThenPump(config: Config, incoming: seq<seq<Bytes>>)
    returns (failed: Option<Failure>, closed: bool, rawLogin: Option<Bytes>, identity: Option<string>,
             encrypted: bool, written: nat, read: seq<Bytes>,
             ghost before: seq<Bytes>, ghost last: Bytes, ghost later: seq<Bytes>)
    ensures Open(config, before)
    ensures failed == Some(ReadFailed) ==> Flat(incoming) == before
    ensures failed != Some(ReadFailed) ==> Flat(incoming) == before + [last] + later
    ensures failed.Some? && failed != Some(ReadFailed) ==> FailsWith(config, before, last, failed.value)
    ensures failed == None ==> Completes(config, before, last)
    ensures failed == None ==>
      read == PassedThrough(config, before) + (if IsPlayStatus(config, last) then [last] else []) + later
    ensures failed == None && config.nethernet ==> Genuine(config, before, last, rawLogin, identity, encrypted)
    ensures failed == None && !config.nethernet ==>
      rawLogin == None && (encrypted <==> EncryptedBy(config, before) || IsServerHandshake(config, last))
    ensures written == Replies(config, if failed == Some(ReadFailed) then before else before + [last])
    ensures closed <==> failed.Some? && (match failed.value
      case ReadFailed => true case HeaderFailed => true case BodyFailed => true case NotForClients => true
      case SettingsNotSent => true case UnknownCompression => true case _ => false)
  {
    hide Scan, PassedThrough, IsPlayStatus, Genuine, Completes, FailsWith, Open, Keeps, EncryptedBy;
    read, before, last, later := [], [], [], [];
    var conn := new ProxyConn(config, incoming);
    failed := conn.ReadLoop();
    closed := conn.closed;
    rawLogin, identity, encrypted := conn.rawLoginPacket, conn.identityData, conn.encryptionEnabled;
    written := conn.written;
    ghost var replied := RepliesOfNewConnection(config, Flat(incoming));
    if failed == None {
      before, last := LoginOfNewConnection(config, Flat(incoming));
      later := Scan(config, NEW_CONNECTION, Flat(incoming)).rest;
      SameFront(replied, before + [last], later);
      read := Pump(conn);
    } else {
      before := FailureOfNewConnection(config, Flat(incoming));
      if failed != Some(ReadFailed) {
        last, later := Flat(incoming)[|before|], Scan(config, NEW_CONNECTION, Flat(incoming)).rest;
        SameFront(replied, before + [last], later);
      }
    }
  }
}
