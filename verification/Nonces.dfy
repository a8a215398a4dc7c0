/** The join nonces of an Xbox Live session: one per active member, renewed whenever the member's
    connection value changes. */
module Nonces {
  import opened GoStrings

  /** A member of a session document: the XUID of its system constants, if it has them, and the connection
      of its system properties, if it has those. */
  datatype Member = Member(xuid: Option<string>, connection: Option<string>)

  type Values = map<string, string>

  /** Go's m[x], with the empty string for a missing key. */
  function Value(m: Values, x: string): string {
    if x in m then m[x] else ""
  }

  /** Somebody other than this account. */
  predicate Counts(m: Member, self: string) {
    m.xuid.Some? && m.xuid.value != "" && m.xuid.value != self
  }

  function ConnectionOf(m: Member): string
    requires m.xuid.Some?
  {
    if m.connection.Some? && m.connection.value != "" then m.connection.value else m.xuid.value
  }

  /** The active members of a document, walked in the order given, and their connections. */
  function Active(members: seq<Member>, self: string): (a: Values)
    ensures forall x :: x in a ==> x != "" && x != self && a[x] != ""
  {
    if members == [] then map[]
    else
      var n := |members| - 1;
      var a := Active(members[..n], self);
      if Counts(members[n], self) then a[members[n].xuid.value := ConnectionOf(members[n])] else a
  }

  /** They are the XUIDs of the members other than this account, each with the connection that its last entry gives,
      or with the XUID itself if that one gives none. */
  lemma {:induction false} ActiveIsLastEntry(members: seq<Member>, self: string, x: string) returns (last: nat)
    ensures x in Active(members, self) <==>
      x != "" && x != self && exists i :: 0 <= i < |members| && members[i].xuid == Some(x)
    ensures x in Active(members, self) ==>
      && last < |members| && members[last].xuid == Some(x)
      && (forall i :: last < i < |members| ==> members[i].xuid != Some(x))
      && (var given := members[last].connection;
          Active(members, self)[x] == if given == None || given == Some("") then x else given.value)
  {
    last := 0;
    if members != [] {
      var n := |members| - 1;
      last := ActiveIsLastEntry(members[..n], self, x);
      assert forall i :: 0 <= i < n ==> members[..n][i] == members[i];
      if members[n].xuid == Some(x) {
        last := n;
      }
    }
  }

  /** The nonces after a refresh: kept for the members whose connection is as before. */
  function Renewed(nonces: Values, connections: Values, active: Values, draw: string -> string): Values {
    map x | x in active :: if x in nonces && x in connections && connections[x] == active[x] then nonces[x] else draw(x)
  }

  class Session {
    const xuid: string
    var nonces: Values
    var nonceConnections: Values

    predicate Valid()
      reads this
    {
      nonces.Keys == nonceConnections.Keys
    }

    constructor (xuid: string)
      ensures Valid() && this.xuid == xuid && nonces == map[] && nonceConnections == map[]
    {
      this.xuid, nonces, nonceConnections := xuid, map[], map[];
    }

    /** RefreshNonces: document is None when it could not be read, and draw(x) is the random nonce for x,
        should one be drawn. pushed says whether an update goes out. */
    method RefreshNonces(document: Option<seq<Member>>, draw: string -> string) returns (pushed: bool)
      requires Valid()
      modifies this
      ensures Valid()
      ensures document.None? ==> !pushed && nonces == old(nonces) && nonceConnections == old(nonceConnections)
      ensures document.Some? ==> nonceConnections == Active(document.value, xuid)
      ensures document.Some? ==> nonces == Renewed(old(nonces), old(nonceConnections), nonceConnections, draw)
      ensures pushed <==> nonceConnections != old(nonceConnections)
    {
      if document.None? {
        return false;
      }
      var activeConn := ActiveConnections(document.value);
      var gone := DropOthers(activeConn);
      var renewed := Renew(activeConn, draw);
      pushed := gone || renewed;
      DropThenRenew(old(nonces), old(nonceConnections), activeConn, draw);
    }

    method ActiveConnections(members: seq<Member>) returns (activeConn: Values)
      ensures activeConn == Active(members, xuid)
    {
      activeConn := map[];
      for i := 0 to |members|
        invariant activeConn == Active(members[..i], xuid)
      {
        var m := members[i];
        assert members[..i + 1][..i] == members[..i];
        if m.xuid.None? || m.xuid.value == "" || m.xuid.value == xuid {
          continue;
        }
        var conn := m.xuid.value;
        if m.connection.Some? && m.connection.value != "" {
          conn := m.connection.value;
        }
        activeConn := activeConn[m.xuid.value := conn];
      }
      assert members[..|members|] == members;
    }

    /** The first loop: whoever is not active any more goes. */
    method DropOthers(activeConn: Values) returns (changed: bool)
      requires Valid()
      modifies this
      ensures Valid() && nonces == Kept(old(nonces), activeConn)
      ensures nonceConnections == Kept(old(nonceConnections), activeConn)
      ensures changed <==> nonceConnections != old(nonceConnections)
    {
      hide KeptBut;
      changed := false;
      ghost var gone := "";
      var left := nonces.Keys;
      LeftEnds(nonces, activeConn);
      LeftEnds(nonceConnections, activeConn);
      while left != {}
        invariant left <= nonces.Keys <= old(nonces).Keys
        invariant nonces == KeptBut(old(nonces), activeConn, left)
        invariant nonceConnections == KeptBut(old(nonceConnections), activeConn, left)
        invariant !changed ==> nonceConnections == old(nonceConnections)
        invariant changed ==> gone in old(nonceConnections) && gone !in activeConn && gone !in left
        decreases |left|
      {
        var x :| x in left;
        LeftStep(old(nonces), activeConn, left, x);
        LeftStep(old(nonceConnections), activeConn, left, x);
        left := left - {x};
        if x !in activeConn {
          nonces := nonces - {x};
          nonceConnections := nonceConnections - {x};
          changed, gone := true, x;
        }
      }
    }

    /** The second: whoever is new or has another connection gets a nonce. */
    method Renew(activeConn: Values, draw: string -> string) returns (changed: bool)
      requires Valid() && nonces.Keys <= activeConn.Keys && forall x :: x in activeConn ==> activeConn[x] != ""
      modifies this
      ensures Valid() && nonceConnections == activeConn
      ensures nonces == Renewed(old(nonces), old(nonceConnections), activeConn, draw)
      ensures changed <==> nonceConnections != old(nonceConnections)
    {
      hide Midway;
      changed := false;
      ghost var newcomer := "";
      ghost var renewed := Renewed(nonces, nonceConnections, activeConn, draw);
      var left := activeConn.Keys;
      assert renewed.Keys == activeConn.Keys;
      MidwayEnds(nonces, renewed);
      MidwayEnds(nonceConnections, activeConn);
      while left != {}
        invariant left <= activeConn.Keys
        invariant nonces == Midway(old(nonces), renewed, left)
        invariant nonceConnections == Midway(old(nonceConnections), activeConn, left)
        invariant !changed ==> nonceConnections == old(nonceConnections)
        invariant changed ==>
          newcomer in activeConn.Keys - left && Value(old(nonceConnections), newcomer) != activeConn[newcomer]
        decreases |left|
      {
        var x :| x in left;
        MidwayStep(old(nonces), renewed, left, x);
        MidwayStep(old(nonceConnections), activeConn, left, x);
        left := left - {x};
        if Value(nonceConnections, x) == activeConn[x] {
          continue;
        }
        Issue(x, activeConn[x], draw);
        changed, newcomer := true, x;
      }
    }

    method Issue(x: string, conn: string, draw: string -> string)
      modifies this
      ensures nonces == old(nonces)[x := draw(x)] && nonceConnections == old(nonceConnections)[x := conn]
    {
      nonces := nonces[x := draw(x)];
      nonceConnections := nonceConnections[x := conn];
    }

    /** The copy buildRequest puts into the document. */
    method CopyNonces() returns (nonceCopy: Values)
      ensures nonceCopy == nonces
    {
      nonceCopy := map[];
      var left := nonces.Keys;
      while left != {}
        invariant left <= nonces.Keys && nonceCopy.Keys == nonces.Keys - left
        invariant forall x :: x in nonceCopy ==> nonceCopy[x] == nonces[x]
        decreases |left|
      {
        var k :| k in left;
        left := left - {k};
        nonceCopy := nonceCopy[k := nonces[k]];
      }
    }
  }

  function Kept(m: Values, activeConn: Values): Values {
    map x | x in m && x in activeConn :: m[x]
  }

  /** With only the members left to do and the active ones still there. */
  function KeptBut(m: Values, activeConn: Values, left: set<string>): Values {
    map x | x in m && (x in left || x in activeConn) :: m[x]
  }

  lemma LeftEnds(m: Values, activeConn: Values)
    ensures KeptBut(m, activeConn, m.Keys) == m && KeptBut(m, activeConn, {}) == Kept(m, activeConn)
  {}

  lemma LeftStep(m: Values, activeConn: Values, left: set<string>, x: string)
    requires x in left && x in m
    ensures var k := KeptBut(m, activeConn, left);
      x in k && KeptBut(m, activeConn, left - {x}) == if x in activeConn then k else k - {x}
  {}

  /** The old values of the members left to do, and the new ones of the others. */
  function Midway(before: Values, after: Values, left: set<string>): Values {
    map x | x in before.Keys + after.Keys && x in (if x in left then before else after) ::
      if x in left then before[x] else after[x]
  }

  lemma MidwayEnds(before: Values, after: Values)
    requires before.Keys <= after.Keys
    ensures Midway(before, after, after.Keys) == before && Midway(before, after, {}) == after
  {}

  lemma MidwayStep(before: Values, after: Values, left: set<string>, x: string)
    requires x in left && x in after
    ensures var m, r := Midway(before, after, left), Midway(before, after, left - {x});
      && (x in m <==> x in before) && (x in before ==> m[x] == before[x])
      && r == m[x := after[x]]
  {}

  lemma DropThenRenew(nonces: Values, connections: Values, active: Values, draw: string -> string)
    requires nonces.Keys == connections.Keys
    ensures Renewed(Kept(nonces, active), Kept(connections, active), active, draw) ==
      Renewed(nonces, connections, active, draw)
    ensures active != connections <==> Kept(connections, active) != connections || active != Kept(connections, active)
  {
    if Kept(connections, active) != connections {
      assert exists x :: x in connections && x !in active;
    }
  }

  // ---------------------------------------------------------------------------------------------
  // Over any sequence of documents

  /** One successful refresh. */
  datatype Refresh = Refresh(members: seq<Member>, draw: string -> string)

  function ActiveAt(rs: seq<Refresh>, self: string, n: nat): Values
    requires n <= |rs|
  {
    if n == 0 then map[] else Active(rs[n - 1].members, self)
  }

  /** The nonces of a new session after n refreshes. */
  function NoncesAt(rs: seq<Refresh>, self: string, n: nat): Values
    requires n <= |rs|
  {
    if n == 0 then map[]
    else Renewed(NoncesAt(rs, self, n - 1), ActiveAt(rs, self, n - 1), ActiveAt(rs, self, n), rs[n - 1].draw)
  }

  predicate SameAt(rs: seq<Refresh>, self: string, n: nat, x: string, conn: string)
    requires n <= |rs|
  {
    x in ActiveAt(rs, self, n) && ActiveAt(rs, self, n)[x] == conn
  }

  /** The members with a nonce are the active ones, and each nonce is the one drawn in the refresh that
      found the member's connection changed: refresh k saw conn, the one before did not, and every one
      since has seen it. A player who left and came back therefore never keeps the old nonce. */
  lemma {:induction false} NonceIsOfLastChange(rs: seq<Refresh>, self: string, n: nat, x: string) returns (k: nat)
    requires n <= |rs|
    ensures x in NoncesAt(rs, self, n) <==> x in ActiveAt(rs, self, n)
    ensures x in NoncesAt(rs, self, n) ==>
      && 0 < k <= n && NoncesAt(rs, self, n)[x] == rs[k - 1].draw(x)
      && (forall i :: k <= i <= n ==> SameAt(rs, self, i, x, ActiveAt(rs, self, n)[x]))
      && !SameAt(rs, self, k - 1, x, ActiveAt(rs, self, n)[x])
  {
    k := n;
    if n > 0 && x in ActiveAt(rs, self, n) {
      var conn := ActiveAt(rs, self, n)[x];
      var j := NonceIsOfLastChange(rs, self, n - 1, x);
      if SameAt(rs, self, n - 1, x, conn) {
        k := j;
      }
    }
  }

  lemma RepeatChangesNothing(nonces: Values, connections: Values, members: seq<Member>, self: string,
                             draw: string -> string, again: string -> string)
    ensures var active := Active(members, self);
      var next := Renewed(nonces, connections, active, draw);
      Renewed(next, active, active, again) == next
  {}

  /** The same document once more changes nothing, whatever would be drawn, and pushes nothing. */
  method RefreshTwice(s: Session, members: seq<Member>, draw: string -> string, again: string -> string)
    returns (first: bool, second: bool)
    requires s.Valid()
    modifies s
    ensures s.Valid() && s.nonceConnections == Active(members, s.xuid)
    ensures s.nonces == Renewed(old(s.nonces), old(s.nonceConnections), s.nonceConnections, draw)
    ensures first <==> s.nonceConnections != old(s.nonceConnections)
    ensures !second
  {
    first := s.RefreshNonces(Some(members), draw);
    second := s.RefreshNonces(Some(members), again);
    RepeatChangesNothing(old(s.nonces), old(s.nonceConnections), members, s.xuid, draw, again);
  }
}
