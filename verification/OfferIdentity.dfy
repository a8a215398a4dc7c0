/** Reading the identity and fingerprint attributes (RFC 8866, sections 5.13 and 5.14) of an offer,
    and what the rewrite of the offer does to what they say. */
module OfferIdentity {
  import opened GoStrings
  import opened Sdp

  // ---------------------------------------------------------------------------------------------
  // Attribute lookup

  function FirstValue(contents: seq<string>, prefix: string): Option<string> {
    if contents == [] then None
    else if prefix <= contents[0] then Some(contents[0][|prefix|..])
    else FirstValue(contents[1..], prefix)
  }

  /** Everything from the first m= line on. */
  function MediaSection(contents: seq<string>): seq<string> {
    if contents == [] then [] else if MediaLine(contents[0]) then contents else MediaSection(contents[1..])
  }

  /** The first value in the media section if that is preferred and there is one, otherwise the
      first value anywhere. */
  function Lookup(contents: seq<string>, prefix: string, preferMedia: bool): Option<string> {
    if preferMedia && FirstValue(MediaSection(contents), prefix).Some?
    then FirstValue(MediaSection(contents), prefix)
    else FirstValue(contents, prefix)
  }

  function PrefixOf(key: string): string {
    ATTRIBUTE + key + ":"
  }

  function AttributeIn(sdp: string, key: string, preferMedia: bool): Option<string> {
    Lookup(Contents(Lines(sdp)), PrefixOf(key), preferMedia)
  }

  lemma {:induction false} FirstValueAppend(a: seq<string>, b: seq<string>, prefix: string)
    ensures FirstValue(a + b, prefix) ==
      if FirstValue(a, prefix).Some? then FirstValue(a, prefix) else FirstValue(b, prefix)
  {
    if a == [] {
      assert a + b == b;
    } else {
      FirstValueAppend(a[1..], b, prefix);
      assert (a + b)[1..] == a[1..] + b;
    }
  }

  lemma {:induction false} MediaSectionAppend(a: seq<string>, b: seq<string>)
    ensures MediaSection(a + b) == if MediaSection(a) != [] then MediaSection(a) + b else MediaSection(b)
  {
    if a == [] {
      assert a + b == b;
    } else {
      MediaSectionAppend(a[1..], b);
      assert (a + b)[1..] == a[1..] + b;
    }
  }

  /** What the loop has found among the lines before i, having returned on none of them. */
  ghost predicate Searching(read: seq<string>, i: nat, prefix: string, preferMedia: bool,
                            session: Option<string>, inMedia: bool)
    requires i <= |read|
  {
    && inMedia == (MediaSection(read[..i]) != [])
    && session == FirstValue(read[..i], prefix)
    && (!preferMedia ==> session == None)
    && (inMedia && preferMedia ==> FirstValue(MediaSection(read[..i]), prefix) == None)
  }

  method SdpAttribute(sdp: string, key: string, preferMedia: bool) returns (value: Option<string>)
    ensures value == AttributeIn(sdp, key, preferMedia)
  {
    var prefix := PrefixOf(key);
    var session: Option<string> := None;
    var inMedia := false;
    var lines := SplitLF(sdp);
    ghost var read := Map(lines, TrimCR);
    LookupOfSplit(sdp, prefix, preferMedia);
    for i := 0 to |lines|
      invariant Searching(read, i, prefix, preferMedia, session, inMedia)
    {
      MapAt(lines, TrimCR, i);
      SearchStep(read, i, prefix, preferMedia, session, inMedia);
      var line := TrimRight(lines[i], {CR});
      if MediaLine(line) {
        inMedia := true;
        continue;
      }
      value := CutPrefix(line, prefix);
      if value == None {
        continue;
      }
      if !preferMedia || inMedia {
        return value;
      }
      if session == None {
        session := value;
      }
    }
    assert read[..|lines|] == read;
    return session;
  }

  lemma SearchStep(read: seq<string>, i: nat, prefix: string, preferMedia: bool, session: Option<string>, inMedia: bool)
    requires i < |read| && prefix != "" && prefix[0] == 'a'
    requires Searching(read, i, prefix, preferMedia, session, inMedia)
    ensures MediaLine(read[i]) ==> Searching(read, i + 1, prefix, preferMedia, session, true)
    ensures !MediaLine(read[i]) && !(prefix <= read[i]) ==>
      Searching(read, i + 1, prefix, preferMedia, session, inMedia)
    ensures prefix <= read[i] && (!preferMedia || inMedia) ==>
      Lookup(read, prefix, preferMedia) == Some(read[i][|prefix|..])
    ensures prefix <= read[i] && preferMedia && !inMedia ==>
      Searching(read, i + 1, prefix, preferMedia, if session == None then Some(read[i][|prefix|..]) else session, false)
  {
    var before, line, after := read[..i], [read[i]], read[i + 1..];
    assert read[..i + 1] == before + line && read == before + (line + after);
    assert line[1..] == [] && (line + after)[1..] == after;
    FirstValueAppend(before, line, prefix);
    MediaSectionAppend(before, line);
    FirstValueAppend(MediaSection(before), line, prefix);
    FirstValueAppend(before, line + after, prefix);
    MediaSectionAppend(before, line + after);
    FirstValueAppend(MediaSection(before), line + after, prefix);
  }

  /** The blank piece a split may leave at the end holds no attribute. */
  lemma LookupOfSplit(sdp: string, prefix: string, preferMedia: bool)
    requires prefix != ""
    ensures Lookup(Map(SplitLF(sdp), TrimCR), prefix, preferMedia) == Lookup(Contents(Lines(sdp)), prefix, preferMedia)
  {
    var contents := Contents(Lines(sdp));
    SplitReadsContents(sdp);
    var last := LastPiece(sdp);
    assert last != [] ==> last[1..] == [];
    FirstValueAppend(contents, last, prefix);
    MediaSectionAppend(contents, last);
    FirstValueAppend(MediaSection(contents), last, prefix);
  }

  /** Line i is the one an attribute is read from: with the prefix, the first such line, or the first such line
      after an m= line if that is preferred and there is one. */
  predicate Chosen(contents: seq<string>, prefix: string, preferMedia: bool, i: nat)
    requires i < |contents|
  {
    var inMedia := preferMedia && exists j :: 0 <= j < |contents| && InMedia(contents, j) && prefix <= contents[j];
    && prefix <= contents[i] && (inMedia ==> InMedia(contents, i))
    && forall j :: 0 <= j < i && (inMedia ==> InMedia(contents, j)) ==> !(prefix <= contents[j])
  }

  lemma {:induction false} FirstValueAt(contents: seq<string>, prefix: string) returns (i: nat)
    ensures i <= |contents| && forall j :: 0 <= j < i ==> !(prefix <= contents[j])
    ensures if i < |contents|
      then prefix <= contents[i] && FirstValue(contents, prefix) == Some(contents[i][|prefix|..])
      else FirstValue(contents, prefix) == None
  {
    i := 0;
    if contents != [] && !(prefix <= contents[0]) {
      i := FirstValueAt(contents[1..], prefix);
      assert forall j :: 0 < j <= i ==> j < |contents| ==> contents[j] == contents[1..][j - 1];
      i := i + 1;
    }
  }

  lemma {:induction false} MediaSectionAt(contents: seq<string>) returns (k: nat)
    ensures k <= |contents| && forall j :: 0 <= j < k ==> !MediaLine(contents[j])
    ensures MediaSection(contents) == contents[k..] && (k < |contents| ==> MediaLine(contents[k]))
  {
    k := 0;
    if contents != [] && !MediaLine(contents[0]) {
      k := MediaSectionAt(contents[1..]);
      assert forall j :: 0 < j <= k ==> j < |contents| ==> contents[j] == contents[1..][j - 1];
      k := k + 1;
    }
  }

  /** The value an attribute has is what follows the prefix in the chosen line; without one with the prefix, there
      is none. */
  lemma LookupMeans(contents: seq<string>, prefix: string, preferMedia: bool) returns (i: nat)
    requires prefix != "" && prefix[0] == 'a'
    ensures i <= |contents|
    ensures i < |contents| ==>
      && Chosen(contents, prefix, preferMedia, i)
      && Lookup(contents, prefix, preferMedia) == Some(contents[i][|prefix|..])
    ensures i == |contents| ==> NoneHas(contents, prefix) && Lookup(contents, prefix, preferMedia) == None
  {
    var k := MediaSectionAt(contents);
    MediaFrom(contents, k);
    i := FirstValueAt(contents, prefix);
    var m := FirstValueAt(contents[k..], prefix);
    if preferMedia && k + m < |contents| {
      i := k + m;
      assert contents[k..][m] == contents[i];
      assert i != k;
      assert forall j :: k <= j < i ==> contents[j] == contents[k..][j - k];
    } else if preferMedia {
      assert forall j :: k <= j < |contents| ==> contents[j] == contents[k..][j - k];
    }
  }

  /** The same for an attribute of an offer. */
  lemma AttributeMeans(sdp: string, key: string, preferMedia: bool) returns (i: nat)
    ensures var contents, prefix := Contents(Lines(sdp)), "a=" + key + ":";
      if i < |contents| then
        && Chosen(contents, prefix, preferMedia, i)
        && AttributeIn(sdp, key, preferMedia) == Some(contents[i][|prefix|..])
      else NoneHas(contents, prefix) && AttributeIn(sdp, key, preferMedia) == None
  {
    hide Chosen, NoneHas, Lookup;
    i := LookupMeans(Contents(Lines(sdp)), PrefixOf(key), preferMedia);
  }

  lemma MediaFrom(contents: seq<string>, k: nat)
    requires k <= |contents| && forall j :: 0 <= j < k ==> !MediaLine(contents[j])
    requires k < |contents| ==> MediaLine(contents[k])
    ensures forall j: nat :: j < |contents| ==> (InMedia(contents, j) <==> k < j)
  {}

  // ---------------------------------------------------------------------------------------------
  // The rewrite leaves the attributes alone

  /** Keys of attributes other than candidate. */
  predicate OtherKey(key: string) {
    Free(key, ':') && key != "candidate"
  }

  lemma OtherKeysDoNotClash(key: string, content: string)
    requires OtherKey(key) && CANDIDATE_LINE <= content
    ensures !(PrefixOf(key) <= content)
  {
    KeysDoNotClash(key, "candidate", content);
    assert "candidate" + ":" == CANDIDATE;
    assert PrefixOf("candidate") == CANDIDATE_LINE;
  }

  lemma KeysDoNotClash(key: string, other: string, content: string)
    requires Free(key, ':') && Free(other, ':') && key != other
    ensures !(PrefixOf(key) <= content && PrefixOf(other) <= content)
  {
    if PrefixOf(key) <= content { KeyEndsAtColon(key, content); }
    if PrefixOf(other) <= content { KeyEndsAtColon(other, content); }
  }

  lemma KeyEndsAtColon(key: string, content: string)
    requires Free(key, ':') && PrefixOf(key) <= content
    ensures IndexOf(content[2..], ':') == |key| && content[2..][..|key|] == key
  {
    var p := PrefixOf(key);
    assert key == p[2..|p| - 1];
    assert content[..|p|] == p;
    assert forall i :: 0 <= i < |key| ==> content[2..][i] == key[i];
    assert content[2..][|key|] == p[|p| - 1] == ':';
  }

  predicate NoneHas(contents: seq<string>, prefix: string) {
    forall i :: 0 <= i < |contents| ==> !(prefix <= contents[i])
  }

  lemma {:induction false} NoneHasNoValue(contents: seq<string>, prefix: string)
    ensures NoneHas(contents, prefix) <==> FirstValue(contents, prefix) == None
    ensures NoneHas(contents, prefix) ==> FirstValue(MediaSection(contents), prefix) == None
  {
    if contents != [] {
      var rest := contents[1..];
      NoneHasNoValue(rest, prefix);
      assert forall i :: 0 <= i < |rest| ==> rest[i] == contents[i + 1];
      assert NoneHas(contents, prefix) <==> !(prefix <= contents[0]) && NoneHas(rest, prefix) by {
        if !(prefix <= contents[0]) && NoneHas(rest, prefix) {
          assert forall i :: 0 < i < |contents| ==> contents[i] == rest[i - 1];
        }
      }
    }
  }

  /** Lines without the prefix, put after the first m= line or at the very end, change no lookup,
      even if they are m= lines themselves. */
  lemma LookupIgnoresInsertion(cs: seq<string>, k: nat, xs: seq<string>, prefix: string, preferMedia: bool)
    requires k <= |cs| && NoneHas(xs, prefix)
    requires k == |cs| || MediaSection(cs[..k]) != []
    ensures Lookup(cs[..k] + xs + cs[k..], prefix, preferMedia) == Lookup(cs, prefix, preferMedia)
  {
    var a, b := cs[..k], cs[k..];
    var m := MediaSection(a);
    assert cs == a + b;
    NoneHasNoValue(xs, prefix);
    FirstValueAppend(a + xs, b, prefix);
    FirstValueAppend(a, xs, prefix);
    FirstValueAppend(a, b, prefix);
    MediaSectionAppend(a + xs, b);
    MediaSectionAppend(a, xs);
    MediaSectionAppend(a, b);
    FirstValueAppend(m + xs, b, prefix);
    FirstValueAppend(m, xs, prefix);
    FirstValueAppend(m, b, prefix);
    if m == [] {
      assert b == [];
      assert MediaSection(xs) + b == MediaSection(xs);
    }
  }

  lemma {:induction false} LookupIgnoresStripping(ls: seq<string>, key: string)
    requires OtherKey(key)
    ensures var p := PrefixOf(key); var kept := Filter(ls, StaysIn);
      && FirstValue(Contents(kept), p) == FirstValue(Contents(ls), p)
      && FirstValue(MediaSection(Contents(kept)), p) == FirstValue(MediaSection(Contents(ls)), p)
  {
    if ls != [] {
      LookupIgnoresStripping(ls[1..], key);
      var line, kept := ls[0], Filter(ls[1..], StaysIn);
      if StaysIn(line) {
        LookupStep(line, kept, PrefixOf(key));
        assert Filter(ls, StaysIn) == [line] + kept;
      } else {
        OtherKeysDoNotClash(key, Content(line));
        assert !MediaLine(Content(line)) by { assert Content(line)[0] == CANDIDATE_LINE[0]; }
      }
      LookupStep(line, ls[1..], PrefixOf(key));
      assert ls == [line] + ls[1..];
    }
  }

  lemma LookupStep(line: string, ls: seq<string>, p: string)
    ensures var c, cs, all := Content(line), Contents(ls), Contents([line] + ls);
      && FirstValue(all, p) == (if p <= c then Some(c[|p|..]) else FirstValue(cs, p))
      && FirstValue(MediaSection(all), p) ==
         (if MediaLine(c) then (if p <= c then Some(c[|p|..]) else FirstValue(cs, p))
          else FirstValue(MediaSection(cs), p))
  {
    assert ([line] + ls)[1..] == ls;
    assert Contents([line] + ls) == [Content(line)] + Contents(ls);
    assert ([Content(line)] + Contents(ls))[1..] == Contents(ls);
  }

  lemma {:induction false} MediaLineStartsSection(contents: seq<string>, j: nat)
    requires j < |contents| && MediaLine(contents[j])
    ensures MediaSection(contents) != []
  {
    if j > 0 && !MediaLine(contents[0]) { MediaLineStartsSection(contents[1..], j - 1); }
  }

  lemma AnchorIsInMediaSection(ls: seq<string>)
    requires Anchor(ls) < |ls|
    ensures MediaSection(Contents(ls)[..Anchor(ls)]) != []
  {
    var k := Anchor(ls);
    assert IsAnchor(ls, k);
    var j :| 0 <= j < k && MediaLine(ls[j]);
    MapAt(ls, Content, j);
    TrimRightFacts(ls[j], {CR, LF});
    var content := Content(ls[j]);
    assert ls[j][1] == '=' && |content| >= 2;
    assert content == ls[j][..|content|];
    assert MediaLine(content);
    MediaLineStartsSection(Contents(ls)[..k], j);
  }

  /** The lines the trickled candidates add to a posted offer. */
  function Added(candidates: seq<string>): seq<string> {
    Inserted(Attributes(candidates))
  }

  /** An attribute reads the same in the posted offer as in the client's own, whatever the offer
      and wherever the candidates went, unless a candidate brings such an attribute along. */
  lemma AttributeSurvivesRewrite(sdp: string, candidates: seq<string>, key: string, preferMedia: bool)
    requires OtherKey(key) && NoneHas(Added(candidates), PrefixOf(key))
    ensures AttributeIn(Rewritten(sdp, candidates), key, preferMedia) == AttributeIn(sdp, key, preferMedia)
  {
    var s := Stripped(sdp);
    var k := Anchor(Lines(s));
    StrippedKeepsTheOtherLines(sdp);
    LookupIgnoresStripping(Lines(sdp), key);
    InlinedContents(s, candidates);
    if k < |Lines(s)| { AnchorIsInMediaSection(Lines(s)); }
    LookupIgnoresInsertion(Contents(Lines(s)), k, Added(candidates), PrefixOf(key), preferMedia);
  }

  /** Exactly when a list of candidates is harmless to every offer it may be written into. */
  lemma AttributeSurvivesIff(candidates: seq<string>, key: string, preferMedia: bool)
    requires OtherKey(key)
    ensures (forall sdp ::
        AttributeIn(Rewritten(sdp, candidates), key, preferMedia) == AttributeIn(sdp, key, preferMedia))
      <==> NoneHas(Added(candidates), PrefixOf(key))
  {
    var p := PrefixOf(key);
    if NoneHas(Added(candidates), p) {
      forall sdp
        ensures AttributeIn(Rewritten(sdp, candidates), key, preferMedia) == AttributeIn(sdp, key, preferMedia)
      {
        AttributeSurvivesRewrite(sdp, candidates, key, preferMedia);
      }
    } else {
      InlinedContents("", candidates);
      assert Stripped("") == "";
      var contents := Contents(Lines(Rewritten("", candidates)));
      assert contents == Added(candidates);
      NoneHasNoValue(contents, p);
      assert AttributeIn("", key, preferMedia) == None;
      assert AttributeIn(Rewritten("", candidates), key, preferMedia) != None;
    }
  }

  /** Whether the lines xs, put before the k-th of cs, leave an attribute as it was. Without preference they
      do if none has it, if one before has it, or if the first of them says what the first one after
      does. If media is preferred, all of that is about the media section as far as it reaches; and if
      there was none, an m= line among xs begins one. */
  predicate Unmoved(cs: seq<string>, k: nat, xs: seq<string>, prefix: string, preferMedia: bool)
    requires k <= |cs|
  {
    var a, b := cs[..k], cs[k..];
    var m, begun := MediaSection(a), MediaSection(xs);
    if !preferMedia then
      NoneHas(xs, prefix) || FirstValue(a, prefix).Some? || FirstValue(xs, prefix) == FirstValue(b, prefix)
    else if m != [] then
      || NoneHas(xs, prefix) || FirstValue(m, prefix).Some?
      || FirstValue(xs, prefix) ==
         (if FirstValue(b, prefix).Some? then FirstValue(b, prefix) else FirstValue(a, prefix))
    else if FirstValue(begun, prefix).Some? then FirstValue(begun, prefix) == FirstValue(a, prefix)
    else NoneHas(xs, prefix) || FirstValue(a, prefix).Some?
  }

  lemma LookupUnmovedIff(cs: seq<string>, k: nat, xs: seq<string>, prefix: string, preferMedia: bool)
    requires k <= |cs| && (k == |cs| || MediaSection(cs[..k]) != [])
    ensures Lookup(cs[..k] + xs + cs[k..], prefix, preferMedia) == Lookup(cs, prefix, preferMedia)
      <==> Unmoved(cs, k, xs, prefix, preferMedia)
  {
    var a, b := cs[..k], cs[k..];
    var m := MediaSection(a);
    assert cs == a + b;
    NoneHasNoValue(xs, prefix);
    FirstValueAppend(a + xs, b, prefix);
    FirstValueAppend(a, xs, prefix);
    FirstValueAppend(a, b, prefix);
    MediaSectionAppend(a + xs, b);
    MediaSectionAppend(a, xs);
    MediaSectionAppend(a, b);
    FirstValueAppend(m + xs, b, prefix);
    FirstValueAppend(m, xs, prefix);
    FirstValueAppend(m, b, prefix);
    MediaValueIsValue(a, prefix);
    if m == [] {
      assert b == [];
      assert MediaSection(xs) + b == MediaSection(xs);
    }
  }

  lemma {:induction false} MediaValueIsValue(contents: seq<string>, prefix: string)
    ensures FirstValue(contents, prefix) == None ==> FirstValue(MediaSection(contents), prefix) == None
  {
    if contents != [] { MediaValueIsValue(contents[1..], prefix); }
  }

  /** Exactly when the candidates leave an attribute of one offer alone. */
  lemma AttributeSurvivesInOfferIff(sdp: string, candidates: seq<string>, key: string, preferMedia: bool)
    requires OtherKey(key)
    ensures var ls := Lines(Stripped(sdp));
      AttributeIn(Rewritten(sdp, candidates), key, preferMedia) == AttributeIn(sdp, key, preferMedia)
      <==> Unmoved(Contents(ls), Anchor(ls), Added(candidates), PrefixOf(key), preferMedia)
  {
    var s := Stripped(sdp);
    var k := Anchor(Lines(s));
    StrippedKeepsTheOtherLines(sdp);
    LookupIgnoresStripping(Lines(sdp), key);
    InlinedContents(s, candidates);
    if k < |Lines(s)| { AnchorIsInMediaSection(Lines(s)); }
    LookupUnmovedIff(Contents(Lines(s)), k, Added(candidates), PrefixOf(key), preferMedia);
  }

  /** Candidates without an inner line feed never bring an attribute along. */
  lemma OneLineAddsNoAttribute(candidates: seq<string>, key: string)
    requires OtherKey(key) && All(candidates, OneLine)
    ensures NoneHas(Added(candidates), PrefixOf(key))
  {
    OneLineInserted(candidates);
    AttributesAreCandidates(candidates);
    var xs := Attributes(candidates);
    forall i | 0 <= i < |xs| ensures !(PrefixOf(key) <= xs[i]) {
      assert IsAttribute(xs[i]);
      OtherKeysDoNotClash(key, xs[i]);
    }
  }

  // ---------------------------------------------------------------------------------------------
  // Who is joining

  datatype Player = Player(xuid: string, name: string, key: Option<string>)

  datatype Assertion = Assertion(token: string, fingerprints: string)

  /** The two parts of a fingerprint attribute that the signed payload quotes. */
  datatype Fingerprint = Fingerprint(algorithm: string, digest: string)

  /** Decoding, token verification and signature checking, which are not part of this model. */
  datatype Crypto = Crypto(
    decode: string -> Option<Assertion>,
    verify: string -> Option<Player>,
    signed: (string, Fingerprint, string) -> bool)

  function FingerprintPayload(sdp: string): Option<Fingerprint> {
    var value := AttributeIn(sdp, "fingerprint", true);
    if value == None then None else
    var at := IndexOf(value.value, ' ');
    if at < 0 then None else
    var digest := value.value[at + 1..];
    if IndexOf(digest, ' ') >= 0 then None else Some(Fingerprint(value.value[..at], digest))
  }

  function VerifyOffer(sdp: string, crypto: Crypto): Option<Player> {
    var value := AttributeIn(sdp, "identity", false);
    if value == None then None else
    var id := crypto.decode(value.value);
    if id == None then None else
    var player := crypto.verify(id.value.token);
    if player == None || player.value.key == None then None else
    var payload := FingerprintPayload(sdp);
    if payload == None then None
    else if crypto.signed(id.value.fingerprints, payload.value, player.value.key.value) then player
    else None
  }

  /** What makes an offer player's: a token issued for the player, and a fingerprint of the offer that the key in
      the token signs. */
  ghost predicate Vouched(sdp: string, crypto: Crypto, player: Player, identity: string, algorithm: string,
                          digest: string) {
    && AttributeIn(sdp, "identity", false) == Some(identity)
    && crypto.decode(identity).Some? && crypto.verify(crypto.decode(identity).value.token) == Some(player)
    && player.key.Some?
    && AttributeIn(sdp, "fingerprint", true) == Some(algorithm + " " + digest)
    && Free(algorithm, ' ') && Free(digest, ' ')
    && crypto.signed(crypto.decode(identity).value.fingerprints, Fingerprint(algorithm, digest), player.key.value)
  }

  ghost predicate IsVouchedFor(sdp: string, crypto: Crypto, player: Player) {
    exists identity, algorithm, digest :: Vouched(sdp, crypto, player, identity, algorithm, digest)
  }

  /** The payload is the two halves of the value around its only space. */
  lemma FingerprintParts(sdp: string, algorithm: string, digest: string)
    ensures FingerprintPayload(sdp) == Some(Fingerprint(algorithm, digest)) <==>
      && AttributeIn(sdp, "fingerprint", true) == Some(algorithm + " " + digest)
      && Free(algorithm, ' ') && Free(digest, ' ')
  {
    hide AttributeIn;
    var value := AttributeIn(sdp, "fingerprint", true);
    if value == Some(algorithm + " " + digest) && Free(algorithm, ' ') && Free(digest, ' ') {
      CutAtSpace(value.value, algorithm, " ", digest);
      assert IndexOf(digest, ' ') < 0;
    }
    if FingerprintPayload(sdp) == Some(Fingerprint(algorithm, digest)) { JoinAtSpace(value.value, " "); }
  }

  lemma JoinAtSpace(value: string, space: string)
    requires space == [' '] && IndexOf(value, ' ') >= 0
    ensures var at := IndexOf(value, ' '); value == value[..at] + space + value[at + 1..] && Free(value[..at], ' ')
  {}

  lemma CutAtSpace(value: string, a: string, space: string, b: string)
    requires space == [' '] && value == a + space + b && Free(a, ' ')
    ensures IndexOf(value, ' ') == |a| && value[..|a|] == a && value[|a| + 1..] == b
  {
    assert value[|a|] == ' ';
    assert forall i :: 0 <= i < |a| ==> value[i] == a[i];
  }

  /** An offer is accepted as a player's exactly if it is vouched for. */
  lemma VerifyOfferIff(sdp: string, crypto: Crypto, player: Player)
    ensures VerifyOffer(sdp, crypto) == Some(player) <==> IsVouchedFor(sdp, crypto, player)
  {
    hide AttributeIn, FingerprintPayload;
    if VerifyOffer(sdp, crypto) == Some(player) {
      var f := FingerprintPayload(sdp).value;
      FingerprintParts(sdp, f.algorithm, f.digest);
      assert Vouched(sdp, crypto, player, AttributeIn(sdp, "identity", false).value, f.algorithm, f.digest);
    }
    if IsVouchedFor(sdp, crypto, player) {
      var identity, algorithm, digest :| Vouched(sdp, crypto, player, identity, algorithm, digest);
      FingerprintParts(sdp, algorithm, digest);
    }
  }

  lemma IdentityKeys()
    ensures OtherKey("identity") && OtherKey("fingerprint")
  {
    assert |"identity"| == 8 && |"fingerprint"| == 11 && |"candidate"| == 9;
  }

  /** The backend reads the same identity and the same fingerprint in the posted offer as the
      client wrote, so it verifies the same player as this process did. */
  lemma SamePlayerAfterRewrite(sdp: string, candidates: seq<string>, crypto: Crypto)
    requires All(candidates, OneLine)
    ensures FingerprintPayload(Rewritten(sdp, candidates)) == FingerprintPayload(sdp)
    ensures VerifyOffer(Rewritten(sdp, candidates), crypto) == VerifyOffer(sdp, crypto)
  {
    IdentityKeys();
    OneLineAddsNoAttribute(candidates, "identity");
    OneLineAddsNoAttribute(candidates, "fingerprint");
    AttributeSurvivesRewrite(sdp, candidates, "identity", false);
    AttributeSurvivesRewrite(sdp, candidates, "fingerprint", true);
  }

  lemma AddedByOne(c: string)
    requires CANDIDATE <= c && Trimmed(c)
    ensures Added([c]) == Contents(Lines(ATTRIBUTE + c))
  {
    CanonicalAttribute(c, ATTRIBUTE, CANDIDATE);
    var x := ATTRIBUTE + c;
    AttributesCons(c, []);
    assert [c] + [] == [c];
    assert Attributes([c]) == [x] + Attributes([]) == [x];
    assert [x][1..] == [];
    var ls := Contents(Lines(x));
    assert ls + Inserted([]) == ls;
  }

  lemma ContentsOfTwo(first: string, second: string)
    requires Terminated(first) && second != "" && Trimmed(second) && Free(second, LF)
    ensures Contents(Lines(first + second)) == Contents(Lines(first)) + [second]
  {
    LinesAppend(first, second);
    SingleLine(second);
    NotSpaceNotLF(second);
    assert [second][1..] == [];
    MapAppend(Lines(first), [second], Content);
  }

  lemma Regroup(a: string, k: string, lf: string, p: string, y: string)
    ensures k + lf + p + y == k + lf + (p + y)
    ensures a + (k + lf + (p + y)) == (a + k + lf) + (p + y)
  {}

  lemma ContentsOfOne(line: string, lf: string)
    requires line != "" && Free(line, LF) && lf == "\n" && line[|line| - 1] != CR
    ensures Contents(Lines(line + lf)) == [line] && Terminated(line + lf)
  {
    SingleLine(line + lf);
    ContentIgnoresEnding(line, lf);
    assert line[|line| - 1] != LF;
    assert [line + lf][1..] == [];
  }

  /** With a line feed inside a candidate, what follows it becomes a line of its own. */
  lemma InnerLineFeedLines(key: string)
    requires Free(key, LF)
    ensures Added([CANDIDATE + "\n" + PrefixOf(key) + "y"]) == [CANDIDATE_LINE, PrefixOf(key) + "y"]
  {
    hide Trimmed, Free, Content, Contents, Lines, Added, Terminated, PrefixOf;
    var y, lf := PrefixOf(key) + "y", "\n";
    PrefixIsFree();
    CandidateStarts();
    AttributeText(key, CANDIDATE, lf);
    Regroup(ATTRIBUTE, CANDIDATE, lf, PrefixOf(key), "y");
    AddedByOne(CANDIDATE + lf + y);
    ContentsOfOne(CANDIDATE_LINE, lf);
    ContentsOfTwo(CANDIDATE_LINE + lf, y);
  }

  lemma CandidateStarts()
    ensures CANDIDATE != "" && !IsSpace(CANDIDATE[0])
  {}

  /** So the rewrite can change what any attribute says: "candidate:", a line feed and "a=identity:y" will
      do. */
  lemma InnerLineFeedAddsAttribute(key: string)
    requires OtherKey(key) && Free(key, LF)
    ensures !NoneHas(Added([CANDIDATE + "\n" + PrefixOf(key) + "y"]), PrefixOf(key))
  {
    InnerLineFeedLines(key);
    var xs := [CANDIDATE_LINE, PrefixOf(key) + "y"];
    assert PrefixOf(key) <= xs[1];
  }

  /** An offer whose media section begins with an attribute of its own, the value of which such a
      candidate takes over. */
  lemma OwnAttributeIsReplaced(key: string, preferMedia: bool)
    requires OtherKey(key) && Free(key, LF)
    ensures var sdp, candidates := "m=\n" + (PrefixOf(key) + "z"), [CANDIDATE + "\n" + PrefixOf(key) + "y"];
      && AttributeIn(sdp, key, preferMedia) == Some("z")
      && AttributeIn(Rewritten(sdp, candidates), key, preferMedia) == Some("y")
  {
    hide Trimmed, Free, Content, Contents, Lines, Added, PrefixOf, Anchor, Attributes, Inserted;
    hide AttributeIn, Lookup, Rewritten, Stripped, Inlined;
    var p := PrefixOf(key);
    var sdp, candidates := "m=\n" + (p + "z"), [CANDIDATE + "\n" + p + "y"];
    assert "m=" + "\n" + (p + "z") == sdp;
    MediaOffer(key, "m=", "\n");
    InlinedContents(sdp, candidates);
    InnerLineFeedLines(key);
    AddedIs(candidates);
    assert ["m=", p + "z"][..1] == ["m="] && ["m=", p + "z"][1..] == [p + "z"];
    assert ["m="] + [CANDIDATE_LINE, p + "y"] + [p + "z"] == ["m=", CANDIDATE_LINE, p + "y", p + "z"];
    LookupsInMedia(key, "m=", CANDIDATE_LINE, preferMedia);
    AttributeIs(sdp, key, preferMedia);
    AttributeIs(Rewritten(sdp, candidates), key, preferMedia);
    RewrittenIs(sdp, candidates);
  }

  lemma AddedIs(candidates: seq<string>)
    ensures Added(candidates) == Inserted(Attributes(candidates))
  {}

  lemma AttributeIs(sdp: string, key: string, preferMedia: bool)
    ensures AttributeIn(sdp, key, preferMedia) == Lookup(Contents(Lines(sdp)), PrefixOf(key), preferMedia)
  {}

  lemma RewrittenIs(sdp: string, candidates: seq<string>)
    ensures Rewritten(sdp, candidates) == Inlined(Stripped(sdp), candidates)
  {}

  lemma LookupsInMedia(key: string, m: string, candidate: string, preferMedia: bool)
    requires OtherKey(key) && m == "m=" && candidate == CANDIDATE_LINE
    ensures var p := PrefixOf(key);
      && Lookup([m, p + "z"], p, preferMedia) == Some("z")
      && Lookup([m, candidate, p + "y", p + "z"], p, preferMedia) == Some("y")
  {
    var p := PrefixOf(key);
    OtherKeysDoNotClash(key, candidate);
    var old_cs, new_cs := [m, p + "z"], [m, candidate, p + "y", p + "z"];
    assert old_cs[1..] == [p + "z"] && new_cs[1..] == [candidate, p + "y", p + "z"];
    assert new_cs[1..][1..] == [p + "y", p + "z"];
    assert MediaSection(old_cs) == old_cs && MediaSection(new_cs) == new_cs;
    assert !(p <= m) by { assert p[0] == 'a'; }
    assert (p + "z")[|p|..] == "z" && (p + "y")[|p|..] == "y";
    assert FirstValue(old_cs, p) == FirstValue([p + "z"], p) == Some("z");
    assert FirstValue(new_cs, p) == FirstValue([candidate, p + "y", p + "z"], p) == FirstValue([p + "y", p + "z"], p);
  }

  /** A media line and one attribute: nothing is stripped, and candidates go between the two. */
  lemma MediaOffer(key: string, m: string, lf: string)
    requires OtherKey(key) && Free(key, LF) && m == "m=" && lf == "\n"
    ensures var z := PrefixOf(key) + "z"; var sdp := m + lf + z;
      Stripped(sdp) == sdp && Anchor(Lines(sdp)) == 1 && Contents(Lines(sdp)) == [m, z]
  {
    var z := PrefixOf(key) + "z";
    var sdp := m + lf + z;
    MediaOfferLines(key, m, lf);
    var ls := [m + lf, z];
    assert MediaLine(ls[0]) && !AttributeLine(ls[0]) && AttributeLine(ls[1]);
    assert InMedia(ls, 1);
    assert IsAnchor(ls, 1) && !IsAnchor(ls, 0);
    assert AnchorFrom(ls, 0) == AnchorFrom(ls, 1) == 1;
    MediaOfferStays(key, m, lf);
    FilterOfKept(ls, StaysIn);
    LinesOfText(sdp);
  }

  lemma MediaOfferLines(key: string, m: string, lf: string)
    requires Free(key, LF) && m == "m=" && lf == "\n"
    ensures var z := PrefixOf(key) + "z"; Lines(m + lf + z) == [m + lf, z] && Contents(Lines(m + lf + z)) == [m, z]
  {
    var z := PrefixOf(key) + "z";
    AttributeText(key, "z", lf);
    TextOfAttribute(key, "z");
    assert Terminated(m + lf);
    LinesAppend(m + lf, z);
    SingleLine(m + lf);
    SingleLine(z);
    ContentsOfOne(m, lf);
    ContentsOfTwo(m + lf, z);
  }

  lemma TextOfAttribute(key: string, v: string)
    requires Free(key, LF) && v == "z"
    ensures var z := PrefixOf(key) + v; z != "" && Trimmed(z) && Free(z, LF) && IsLine(z)
  {}

  lemma MediaOfferStays(key: string, m: string, lf: string)
    requires OtherKey(key) && Free(key, LF) && m == "m=" && lf == "\n"
    ensures StaysIn(m + lf) && StaysIn(PrefixOf(key) + "z")
  {
    var z := PrefixOf(key) + "z";
    TextOfAttribute(key, "z");
    NotSpaceNotLF(z);
    ContentIgnoresEnding(m, lf);
    assert Content(m) == m;
    if CANDIDATE_LINE <= Content(z) {
      OtherKeysDoNotClash(key, Content(z));
    }
  }

  lemma AttributeText(key: string, k: string, lf: string)
    requires Free(key, LF) && k != "" && !IsSpace(k[0])
    ensures var y := PrefixOf(key) + "y";
      && PrefixOf(key) <= y && Trimmed(y) && Free(y, LF)
      && k <= k + lf + y && Trimmed(k + lf + y)
  {}
}
