/** How an SDP offer is rewritten before it is posted to the backend: relay candidates are taken
    out and the trickled ones written in. A text is read as the sequence of its lines (RFC 8866,
    section 5); candidate attributes are those of RFC 8839, section 5.1. */
module Sdp {
  import opened GoStrings

  const ATTRIBUTE := "a="
  const CANDIDATE := "candidate:"
  const CANDIDATE_LINE := ATTRIBUTE + CANDIDATE

  // ---------------------------------------------------------------------------------------------
  // Relay candidates

  /** The word after the first "typ" is "relay". */
  predicate RelayType(fields: seq<string>) {
    exists i :: 0 <= i < |fields| - 1 && fields[i] == "typ" && fields[i + 1] == "relay" && NoTypBefore(fields, i)
  }

  predicate NoTypBefore(fields: seq<string>, i: int)
    requires i <= |fields|
  {
    forall j :: 0 <= j < i ==> fields[j] != "typ"
  }

  predicate RelayCandidate(candidate: string) {
    RelayType(Fields(candidate))
  }

  method IsRelayCandidate(candidate: string) returns (relay: bool)
    ensures relay == RelayCandidate(candidate)
  {
    var fields := Fields(candidate);
    var i := 0;
    while i + 1 < |fields|
      invariant 0 <= i && (i <= |fields| - 1 || i == 0)
      invariant i <= |fields| && NoTypBefore(fields, i)
    {
      if fields[i] == "typ" {
        assert RelayType(fields) ==> fields[i + 1] == "relay";
        return fields[i + 1] == "relay";
      }
      i := i + 1;
    }
    return false;
  }

  /** The first "typ" decides, whatever comes later. */
  lemma FirstTypDecides(candidate: string, before: seq<string>, after: seq<string>)
    requires Fields(candidate) == before + ["typ"] + after && forall i :: 0 <= i < |before| ==> before[i] != "typ"
    ensures RelayCandidate(candidate) <==> after != [] && after[0] == "relay"
  {
    var fs := Fields(candidate);
    assert fs[|before|] == "typ" && forall i :: 0 <= i < |before| ==> fs[i] == before[i];
    if after != [] {
      assert fs[|before| + 1] == after[0];
      if after[0] == "relay" { assert NoTypBefore(fs, |before|); }
    }
  }

  lemma NoTypNoRelay(candidate: string)
    requires forall i :: 0 <= i < |Fields(candidate)| ==> Fields(candidate)[i] != "typ"
    ensures !RelayCandidate(candidate)
  {}

  /** A candidate as clients write it, word by word (RFC 8839, section 5.1), is a relay candidate exactly if
      its type is relay. */
  lemma OrdinaryCandidate(before: seq<string>, typ: string, after: seq<string>)
    requires All(before, IsWord) && IsWord(typ) && All(after, IsWord)
    requires forall i :: 0 <= i < |before| ==> before[i] != "typ"
    ensures RelayCandidate(Spaced(before + ["typ"] + ([typ] + after))) <==> typ == "relay"
  {
    var later := [typ] + after;
    var ws := before + ["typ"] + later;
    assert IsWord("typ");
    hide IsWord, RelayCandidate;
    AllAppend([typ], after, IsWord);
    AllAppend(before, ["typ"], IsWord);
    AllAppend(before + ["typ"], later, IsWord);
    FieldsOfSpaced(ws);
    FirstTypDecides(Spaced(ws), before, later);
  }

  predicate RelayLine(l: string) {
    var value := CutPrefix(Content(l), CANDIDATE_LINE);
    value.Some? && RelayCandidate(value.value)
  }

  /** A line is removed exactly if it is a candidate attribute with a relay candidate for its value. */
  lemma RelayLineMeans(l: string, value: string)
    ensures Content(l) == "a=candidate:" + value ==> (RelayLine(l) <==> RelayCandidate(value))
    ensures !("a=candidate:" <= Content(l)) ==> !RelayLine(l)
  {}

  predicate StaysIn(l: string) {
    !RelayLine(l)
  }

  function Stripped(sdp: string): string {
    Concat(Filter(Lines(sdp), StaysIn))
  }

  /** How many lines of an SDP are relay candidates. */
  function RelayLines(ls: seq<string>): nat {
    if ls == [] then 0 else (if RelayLine(ls[0]) then 1 else 0) + RelayLines(ls[1..])
  }

  method StripRelayCandidates(sdp: string) returns (out: string, removed: nat)
    ensures out == Stripped(sdp)
    ensures removed == RelayLines(Lines(sdp))
  {
    hide *;
    if !Contains(sdp, "relay") {
      EarlyReturn(sdp);
      return sdp, 0;
    }
    out, removed := "", 0;
    var rest := sdp;
    NothingDone(sdp);
    while rest != ""
      invariant ToGo(sdp, out, removed, rest)
      decreases |rest|
    {
      var line := rest;
      ghost var before := rest;
      var i := IndexOf(rest, LF);
      if i >= 0 {
        line, rest := rest[..i + 1], rest[i + 1..];
      } else {
        rest := "";
      }
      StrippedStep(sdp, out, removed, before, line, rest);
      var relay := false;
      var value := CutPrefix(TrimRight(line, {CR, LF}), CANDIDATE_LINE);
      RelayLineIs(line);
      if value.Some? {
        relay := IsRelayCandidate(value.value);
      }
      if relay {
        removed := removed + 1;
        continue;
      }
      out := out + line;
    }
    AllDone(sdp, out, removed);
  }

  lemma RelayLineIs(line: string)
    ensures var value := CutPrefix(TrimRight(line, {CR, LF}), CANDIDATE_LINE);
      RelayLine(line) <==> value.Some? && RelayCandidate(value.value)
  {}

  lemma EarlyReturn(sdp: string)
    requires !Contains(sdp, "relay")
    ensures Stripped(sdp) == sdp && RelayLines(Lines(sdp)) == 0
  {
    NoRelayWord(sdp);
    LinesOfText(sdp);
  }

  lemma NothingDone(sdp: string)
    ensures ToGo(sdp, "", 0, sdp)
  {
    assert "" + Stripped(sdp) == Stripped(sdp);
  }

  lemma AllDone(sdp: string, out: string, removed: nat)
    requires ToGo(sdp, out, removed, "")
    ensures out == Stripped(sdp) && removed == RelayLines(Lines(sdp))
  {
    assert Lines("") == [];
    assert out + "" == out;
  }

  /** With out written and removed counted, rest remains to be done. */
  ghost predicate ToGo(sdp: string, out: string, removed: nat, rest: string) {
    && Stripped(sdp) == out + Stripped(rest)
    && RelayLines(Lines(sdp)) == removed + RelayLines(Lines(rest))
  }

  lemma StrippedStep(sdp: string, out: string, removed: nat, s: string, line: string, rest: string)
    requires s != "" && ToGo(sdp, out, removed, s)
    requires var i := IndexOf(s, LF);
      line == (if i < 0 then s else s[..i + 1]) && rest == (if i < 0 then "" else s[i + 1..])
    ensures if RelayLine(line) then ToGo(sdp, out, removed + 1, rest) else ToGo(sdp, out + line, removed, rest)
  {
    hide RelayLine, Lines, RelayLines, Filter, StaysIn;
    CutLine(s, line, rest);
    StripLine(line, Lines(rest));
    if !RelayLine(line) {
      assert out + (line + Stripped(rest)) == (out + line) + Stripped(rest);
    }
  }

  lemma CutLine(s: string, line: string, rest: string)
    requires s != ""
    requires var i := IndexOf(s, LF);
      line == (if i < 0 then s else s[..i + 1]) && rest == (if i < 0 then "" else s[i + 1..])
    ensures Lines(s) == [line] + Lines(rest)
  {
    assert s[..|s|] == s && s[|s|..] == "";
    FirstLine(s);
  }

  lemma StripLine(line: string, ls: seq<string>)
    ensures var kept := Concat(Filter(ls, StaysIn));
      && Concat(Filter([line] + ls, StaysIn)) == (if RelayLine(line) then kept else line + kept)
      && RelayLines([line] + ls) == (if RelayLine(line) then 1 else 0) + RelayLines(ls)
  {
    hide RelayLine;
    assert ([line] + ls)[1..] == ls;
    var kept := Filter(ls, StaysIn);
    assert ([line] + kept)[1..] == kept;
  }

  /** The early return: without the word there is nothing to remove. */
  lemma {:induction false} NoRelayWord(s: string)
    requires !Contains(s, "relay")
    ensures Filter(Lines(s), StaysIn) == Lines(s) && RelayLines(Lines(s)) == 0
    decreases |s|
  {
    if s != "" {
      var n := LineLength(s);
      var line, rest := s[..n], s[n..];
      FirstLine(s);
      if Contains(rest, "relay") { ContainsInSuffix(s, n, "relay"); }
      NoRelayWord(rest);
      if RelayLine(line) {
        RelayLineSaysRelay(line);
        ContainsInPrefix(s, n, "relay");
      }
    }
  }

  lemma RelayLineSaysRelay(line: string)
    requires RelayLine(line)
    ensures Contains(line, "relay")
  {
    var content := Content(line);
    RelaySaysRelay(content[|CANDIDATE_LINE|..]);
    ContainsInSuffix(content, |CANDIDATE_LINE|, "relay");
    TrimRightFacts(line, {CR, LF});
    assert content == line[..|content|];
    ContainsInPrefix(line, |content|, "relay");
  }

  lemma RelaySaysRelay(candidate: string)
    requires RelayCandidate(candidate)
    ensures Contains(candidate, "relay")
  {
    var fields := Fields(candidate);
    var i :| 0 <= i < |fields| - 1 && fields[i] == "typ" && fields[i + 1] == "relay" && NoTypBefore(fields, i);
    FieldIsContained(candidate, i + 1);
  }

  /** What is posted has exactly the original lines that are not relay candidates, in order; none
      that could be removed is left, and removing again changes nothing. */
  lemma StrippedKeepsTheOtherLines(sdp: string)
    ensures Lines(Stripped(sdp)) == Filter(Lines(sdp), StaysIn)
    ensures All(Lines(Stripped(sdp)), StaysIn)
    ensures Stripped(Stripped(sdp)) == Stripped(sdp)
  {
    LinesOfText(sdp);
    FilterStaysWellFormed(Lines(sdp), StaysIn);
    LinesOfConcat(Filter(Lines(sdp), StaysIn));
    FilterLeavesOnlyKept(Lines(sdp), StaysIn);
    FilterOfKept(Filter(Lines(sdp), StaysIn), StaysIn);
  }

  /** Every line is either kept or counted as removed. */
  lemma {:induction false} RemovedCount(ls: seq<string>)
    ensures |Filter(ls, StaysIn)| + RelayLines(ls) == |ls|
  {
    if ls != [] { RemovedCount(ls[1..]); }
  }

  // ---------------------------------------------------------------------------------------------
  // Where the candidates go

  predicate MediaLine(l: string) {
    |l| >= 2 && l[0] == 'm' && l[1] == '='
  }

  predicate AttributeLine(l: string) {
    |l| >= 2 && l[0] == 'a' && l[1] == '='
  }

  predicate InMedia(ls: seq<string>, i: nat)
    requires i <= |ls|
  {
    exists j :: 0 <= j < i && MediaLine(ls[j])
  }

  /** The attribute line candidates are written in front of. */
  predicate IsAnchor(ls: seq<string>, i: nat)
    requires i < |ls|
  {
    AttributeLine(ls[i]) && InMedia(ls, i)
  }

  function AnchorFrom(ls: seq<string>, i: nat): (k: nat)
    requires i <= |ls|
    ensures i <= k <= |ls|
    ensures k < |ls| ==> IsAnchor(ls, k)
    ensures forall j :: i <= j < k ==> !IsAnchor(ls, j)
    decreases |ls| - i
  {
    if i == |ls| || IsAnchor(ls, i) then i else AnchorFrom(ls, i + 1)
  }

  /** The first attribute line after an m= line, or the number of lines if there is none. */
  function Anchor(ls: seq<string>): (k: nat)
    ensures k <= |ls|
  {
    AnchorFrom(ls, 0)
  }

  predicate BeginsLine(sdp: string, p: nat) {
    p < |sdp| && (p == 0 || sdp[p - 1] == LF)
  }

  predicate MediaAt(sdp: string, p: nat) {
    BeginsLine(sdp, p) && "m=" <= sdp[p..]
  }

  predicate AttributeAt(sdp: string, p: nat) {
    BeginsLine(sdp, p) && "a=" <= sdp[p..]
  }

  /** at is where an attribute line begins, after an m= line and with no attribute line between. */
  predicate FirstMediaAttribute(sdp: string, at: nat) {
    && AttributeAt(sdp, at)
    && (exists m :: 0 <= m < at && MediaAt(sdp, m))
    && (forall m, p :: 0 <= m < p < at && MediaAt(sdp, m) ==> !AttributeAt(sdp, p))
  }

  lemma StartOfLine(sdp: string, i: nat)
    requires i < |Lines(sdp)|
    ensures var ls := Lines(sdp); var p := |Concat(ls[..i])|;
      && BeginsLine(sdp, p)
      && (MediaAt(sdp, p) <==> MediaLine(ls[i]))
      && (AttributeAt(sdp, p) <==> AttributeLine(ls[i]))
  {
    var ls := Lines(sdp);
    var p := |Concat(ls[..i])|;
    CutAtLine(sdp, i);
    LinesBeforeAreEnded(sdp, i);
    LinesOfText(sdp);
    var l, rest := ls[i], Concat(ls[i + 1..]);
    assert ls[i..] == [l] + ls[i + 1..];
    ConcatCons(l, ls[i + 1..]);
    assert sdp[p..] == l + rest && IsLine(l);
    assert i < |ls| - 1 ==> Terminated(l);
    if i == |ls| - 1 { assert ls[i + 1..] == []; }
    LineHeads(l, rest);
    if p > 0 { assert sdp[p - 1] == sdp[..p][p - 1]; }
  }

  /** What a text begins with is what its first line begins with. */
  lemma LineHeads(l: string, rest: string)
    requires IsLine(l) && (Terminated(l) || rest == "")
    ensures "m=" <= l + rest <==> MediaLine(l)
    ensures "a=" <= l + rest <==> AttributeLine(l)
  {
    var s := l + rest;
    assert s[0] == l[0];
    if |l| >= 2 {
      assert s[1] == l[1];
      assert "m=" <= s <==> s[..2] == "m=";
      assert "a=" <= s <==> s[..2] == "a=";
    } else if rest != "" {
      assert l[0] == LF;
    }
  }

  /** Every place where a line begins is where one of the lines begins. */
  lemma {:induction false} LineOfStart(sdp: string, p: nat) returns (i: nat)
    requires BeginsLine(sdp, p)
    ensures i < |Lines(sdp)| && |Concat(Lines(sdp)[..i])| == p
    decreases |sdp|
  {
    var n := LineLength(sdp);
    var l, rest := sdp[..n], sdp[n..];
    var ls := Lines(sdp);
    FirstLine(sdp);
    if p == 0 {
      i := 0;
      assert ls[..0] == [];
    } else {
      assert forall q :: 0 <= q < n - 1 ==> l[q] == sdp[q] && sdp[q] != LF;
      assert p >= n;
      assert p > n ==> rest[p - n - 1] == sdp[p - 1];
      var j := LineOfStart(rest, p - n);
      i := j + 1;
      assert ls[..i] == [l] + Lines(rest)[..j];
      ConcatCons(l, Lines(rest)[..j]);
    }
  }

  lemma {:induction false} StartsGrow(ls: seq<string>, i: nat, j: nat)
    requires WellFormed(ls) && i <= j <= |ls|
    ensures |Concat(ls[..i])| <= |Concat(ls[..j])| && (i < j ==> |Concat(ls[..i])| < |Concat(ls[..j])|)
  {
    if i < j {
      StartsGrow(ls, i, j - 1);
      ConcatSnoc(ls, j - 1);
      assert IsLine(ls[j - 1]);
    }
  }

  lemma StartsAreOrdered(sdp: string, i: nat, j: nat)
    requires i < |Lines(sdp)| && j < |Lines(sdp)|
    ensures i < j <==> |Concat(Lines(sdp)[..i])| < |Concat(Lines(sdp)[..j])|
  {
    LinesOfText(sdp);
    StartsGrow(Lines(sdp), if i < j then i else j, if i < j then j else i);
  }

  /** The anchor line is the first media attribute, and nothing else is. */
  lemma AnchorIsFirst(sdp: string)
    ensures var ls := Lines(sdp);
      Anchor(ls) < |ls| ==> FirstMediaAttribute(sdp, |Concat(ls[..Anchor(ls)])|)
  {
    var ls := Lines(sdp);
    var k := Anchor(ls);
    if k < |ls| {
      var at := |Concat(ls[..k])|;
      StartOfLine(sdp, k);
      var j :| 0 <= j < k && MediaLine(ls[j]);
      StartOfLine(sdp, j);
      StartsAreOrdered(sdp, j, k);
      forall m, p | 0 <= m < p < at && MediaAt(sdp, m) ensures !AttributeAt(sdp, p) {
        if AttributeAt(sdp, p) { PlaceIsAnchor(sdp, m, p, k); }
      }
    }
  }

  lemma PlaceIsAnchor(sdp: string, m: nat, p: nat, k: nat)
    requires m < p && MediaAt(sdp, m) && AttributeAt(sdp, p)
    ensures var ls := Lines(sdp);
      Anchor(ls) < |ls| && |Concat(ls[..Anchor(ls)])| <= p
  {
    var ls := Lines(sdp);
    var im := LineOfStart(sdp, m);
    var ip := LineOfStart(sdp, p);
    StartOfLine(sdp, im);
    StartOfLine(sdp, ip);
    StartsAreOrdered(sdp, im, ip);
    assert InMedia(ls, ip) && IsAnchor(ls, ip);
    StartsAreOrdered(sdp, ip, Anchor(ls));
  }

  lemma FirstIsAnchor(sdp: string, at: nat)
    requires FirstMediaAttribute(sdp, at)
    ensures var ls := Lines(sdp); Anchor(ls) < |ls| && at == |Concat(ls[..Anchor(ls)])|
  {
    var ls := Lines(sdp);
    var m :| 0 <= m < at && MediaAt(sdp, m);
    PlaceIsAnchor(sdp, m, at, 0);
    AnchorIsFirst(sdp);
    var k := |Concat(ls[..Anchor(ls)])|;
    assert !(k < at);
  }

  lemma AnchorMeans(sdp: string)
    ensures var ls := Lines(sdp);
      forall p: nat :: FirstMediaAttribute(sdp, p) <==> Anchor(ls) < |ls| && p == |Concat(ls[..Anchor(ls)])|
  {
    AnchorIsFirst(sdp);
    forall p | FirstMediaAttribute(sdp, p)
      ensures Anchor(Lines(sdp)) < |Lines(sdp)| && p == |Concat(Lines(sdp)[..Anchor(Lines(sdp))])|
    {
      FirstIsAnchor(sdp, p);
    }
  }

  /** The place is found whatever lines stand between the m= line and the attributes, or there is none. */
  method MediaAttributeOffset(sdp: string) returns (at: int)
    ensures var ls := Lines(sdp); var k := Anchor(ls);
      at == if k < |ls| then |Concat(ls[..k])| else -1
    ensures at >= -1 && (at >= 0 ==> FirstMediaAttribute(sdp, at))
    ensures at == -1 ==> forall p: nat :: !FirstMediaAttribute(sdp, p)
  {
    hide *;
    AnchorMeans(sdp);
    var inMedia := false;
    var offset := 0;
    ghost var i := 0;
    NothingScanned(sdp);
    while offset < |sdp|
      invariant 0 <= offset <= |sdp| && Scanned(sdp, offset, i, inMedia)
      decreases |sdp| - offset
    {
      var end := IndexOf(sdp[offset..], LF);
      var next := |sdp|;
      if end >= 0 {
        next := offset + end + 1;
      }
      var line := sdp[offset..next];
      ScanOneLine(sdp, offset, i, inMedia, next);
      if MediaLine(line) {
        inMedia := true;
      } else if inMedia && AttributeLine(line) {
        return offset;
      }
      offset, i := next, i + 1;
    }
    AllScanned(sdp, i, inMedia);
    return -1;
  }

  /** The first offset characters are the first i lines, none of them the anchor. */
  ghost predicate Scanned(sdp: string, offset: nat, i: nat, inMedia: bool) {
    var ls := Lines(sdp);
    && offset <= |sdp| && i <= |ls|
    && Lines(sdp[offset..]) == ls[i..] && offset == |Concat(ls[..i])|
    && inMedia == InMedia(ls, i) && Anchor(ls) == AnchorFrom(ls, i)
  }

  lemma NothingScanned(sdp: string)
    ensures Scanned(sdp, 0, 0, false)
  {
    assert sdp[0..] == sdp;
  }

  lemma ScanOneLine(sdp: string, offset: nat, i: nat, inMedia: bool, next: nat)
    requires offset < |sdp| && Scanned(sdp, offset, i, inMedia)
    requires var end := IndexOf(sdp[offset..], LF); next == if end >= 0 then offset + end + 1 else |sdp|
    ensures var line, k := sdp[offset..next], Anchor(Lines(sdp));
      if !MediaLine(line) && inMedia && AttributeLine(line)
      then k < |Lines(sdp)| && offset == |Concat(Lines(sdp)[..k])|
      else Scanned(sdp, next, i + 1, inMedia || MediaLine(line))
  {
    var ls, here := Lines(sdp), sdp[offset..];
    var line, rest := sdp[offset..next], sdp[next..];
    assert line == here[..LineLength(here)] && here[LineLength(here)..] == rest;
    FirstLine(here);
    hide Lines, LineLength, IndexOf, InMedia, MediaLine, AttributeLine;
    Cons(ls, i, line, Lines(rest));
    ConcatSnoc(ls, i);
    InMediaStep(ls, i);
  }

  lemma Cons<T>(ls: seq<T>, i: nat, x: T, xs: seq<T>)
    requires i <= |ls| && ls[i..] == [x] + xs
    ensures i < |ls| && ls[i] == x && ls[i + 1..] == xs
  {
    assert ls[i..][0] == ls[i] && ls[i..][1..] == ls[i + 1..];
  }

  lemma AllScanned(sdp: string, i: nat, inMedia: bool)
    requires Scanned(sdp, |sdp|, i, inMedia)
    ensures Anchor(Lines(sdp)) == |Lines(sdp)|
  {
    assert sdp[|sdp|..] == "";
  }

  lemma ConcatSnoc(ls: seq<string>, i: nat)
    requires i < |ls|
    ensures Concat(ls[..i + 1]) == Concat(ls[..i]) + ls[i]
  {
    assert ls[..i + 1] == ls[..i] + [ls[i]];
    ConcatAppend(ls[..i], [ls[i]]);
    assert [ls[i]][1..] == [] && Concat([ls[i]]) == ls[i];
  }

  lemma InMediaStep(ls: seq<string>, i: nat)
    requires i < |ls|
    ensures InMedia(ls, i + 1) == (InMedia(ls, i) || MediaLine(ls[i]))
  {
    if InMedia(ls, i) {
      var j :| 0 <= j < i && MediaLine(ls[j]);
      assert 0 <= j < i + 1 && MediaLine(ls[j]);
    }
  }

  // ---------------------------------------------------------------------------------------------
  // Candidate attributes

  function CandidateAttribute(candidate: string): string {
    AttributeOf(candidate, ATTRIBUTE, CANDIDATE)
  }

  /** The attribute line for a candidate, with a and k the two prefixes it may or may not have. */
  function AttributeOf(candidate: string, a: string, k: string): string {
    var trimmed := TrimSpace(candidate);
    var value := if a <= trimmed then trimmed[|a|..] else trimmed;
    if value == "" then ""
    else if k <= value then a + value
    else a + (k + value)
  }

  lemma AttributeOfFacts(candidate: string, a: string, k: string)
    requires a != "" && !IsSpace(a[0])
    ensures var x := AttributeOf(candidate, a, k);
      x != "" ==> a + k <= x && |x| > |a| && Trimmed(x)
  {
    var trimmed := TrimSpace(candidate);
    var value := if a <= trimmed then trimmed[|a|..] else trimmed;
    if value != "" {
      assert value[|value| - 1] == trimmed[|trimmed| - 1];
      var x := if k <= value then a + value else (a + k) + value;
      assert x == AttributeOf(candidate, a, k) by {
        assert a + (k + value) == (a + k) + value;
      }
      assert x[0] == a[0] && x[|x| - 1] == value[|value| - 1];
      PrefixOfSum(a, k, value);
    }
  }

  lemma PrefixOfSum(a: string, k: string, value: string)
    ensures k <= value ==> a + k <= a + value
  {}

  lemma AttributeOfOneLine(candidate: string, a: string, k: string)
    requires Free(a + k, LF) && Free(TrimSpace(candidate), LF)
    ensures Free(AttributeOf(candidate, a, k), LF)
  {
    var trimmed := TrimSpace(candidate);
    var value := if a <= trimmed then trimmed[|a|..] else trimmed;
    assert Free(value, LF);
    hide TrimSpace, Free;
    FreeConcat(a, k, LF);
    FreeConcat(a, value, LF);
    FreeConcat(k, value, LF);
    FreeConcat(a, k + value, LF);
    assert value == "" ==> Free(value, LF);
  }

  lemma AttributeOfAttribute(x: string, a: string, k: string)
    requires a + k <= x && |x| > |a| && Trimmed(x)
    ensures AttributeOf(x, a, k) == x
  {
    TrimmedIsFixed(x);
    assert a == (a + k)[..|a|] && k == (a + k)[|a|..];
    assert x == a + x[|a|..] && k <= x[|a|..];
  }

  predicate IsAttribute(x: string) {
    CANDIDATE_LINE <= x && |x| > |ATTRIBUTE| && Trimmed(x)
  }

  /** t is one of the forms a client may send the candidate v in: bare, or with one or both of the
      prefixes a and k. */
  predicate IsForm(t: string, v: string, a: string, k: string) {
    || t == a + (k + v)
    || t == k + v
    || (v != "" && !(k <= v) && t == a + v)
    || (v != "" && !(k <= v) && t == v && !(a <= v))
  }

  lemma FormsAgree(candidate: string, v: string, a: string, k: string)
    requires a != "" && k != "" && a[0] != k[0] && IsForm(TrimSpace(candidate), v, a, k)
    ensures AttributeOf(candidate, a, k) == a + (k + v)
  {
    var t := TrimSpace(candidate);
    var value := if a <= t then t[|a|..] else t;
    if a <= t {
      assert t == a + value;
    }
    if t == a + (k + v) {
      assert value == k + v;
    } else if t == k + v {
      assert t[0] == k[0];
    } else if t == a + v {
      assert value == v;
    }
  }

  lemma SomeForm(candidate: string, a: string, k: string) returns (v: string)
    requires a != "" && k != "" && a[0] != k[0]
    ensures AttributeOf(candidate, a, k) == "" <==> TrimSpace(candidate) == "" || TrimSpace(candidate) == a
    ensures AttributeOf(candidate, a, k) != "" ==> IsForm(TrimSpace(candidate), v, a, k)
  {
    var t := TrimSpace(candidate);
    var value := if a <= t then t[|a|..] else t;
    if a <= t {
      assert t == a + value;
    }
    v := if k <= value then value[|k|..] else value;
    if k <= value {
      assert value == k + v;
    }
  }

  /** However a client writes a candidate, bare, after "candidate:", after "a=" or after both, the same
      value becomes the same line, which carries that value; and every candidate that gives a line is of
      one of these forms. */
  lemma CandidateForms(candidate: string) returns (v: string)
    ensures forall w :: IsForm(TrimSpace(candidate), w, ATTRIBUTE, CANDIDATE) ==>
      CandidateAttribute(candidate) == CANDIDATE_LINE + w
    ensures CandidateAttribute(candidate) == "" <==> TrimSpace(candidate) == "" || TrimSpace(candidate) == ATTRIBUTE
    ensures CandidateAttribute(candidate) != "" ==> IsForm(TrimSpace(candidate), v, ATTRIBUTE, CANDIDATE)
  {
    forall w | IsForm(TrimSpace(candidate), w, ATTRIBUTE, CANDIDATE)
      ensures CandidateAttribute(candidate) == CANDIDATE_LINE + w
    {
      FormsAgree(candidate, w, ATTRIBUTE, CANDIDATE);
      assert ATTRIBUTE + (CANDIDATE + w) == CANDIDATE_LINE + w;
    }
    v := SomeForm(candidate, ATTRIBUTE, CANDIDATE);
  }

  /** Every form a client may use becomes one attribute, and an attribute is left as it is. */
  lemma CandidateAttributeFacts(candidate: string)
    ensures var x := CandidateAttribute(candidate);
      && (x != "" ==> IsAttribute(x))
      && (Free(TrimSpace(candidate), LF) ==> Free(x, LF))
      && CandidateAttribute(x) == x
  {
    var x := CandidateAttribute(candidate);
    PrefixIsFree();
    AttributeOfFacts(candidate, ATTRIBUTE, CANDIDATE);
    if Free(TrimSpace(candidate), LF) { AttributeOfOneLine(candidate, ATTRIBUTE, CANDIDATE); }
    if x != "" {
      AttributeOfAttribute(x, ATTRIBUTE, CANDIDATE);
    } else {
      TrimmedIsFixed("");
    }
  }

  lemma PrefixIsFree()
    ensures Free(CANDIDATE_LINE, LF) && !IsSpace(ATTRIBUTE[0])
    ensures |CANDIDATE_LINE| == 12 && CANDIDATE_LINE[11] == ':'
  {}

  /** The attribute lines written for a list of candidates; blank ones give none. */
  function Attributes(candidates: seq<string>): seq<string> {
    Filter(Map(candidates, CandidateAttribute), NotBlank)
  }

  predicate NotBlank(s: string) {
    s != ""
  }

  lemma AttributesSnoc(candidates: seq<string>, c: string)
    ensures var x := CandidateAttribute(c);
      Attributes(candidates + [c]) == if x == "" then Attributes(candidates) else Attributes(candidates) + [x]
  {
    var f := CandidateAttribute;
    MapAppend(candidates, [c], f);
    FilterAppend(Map(candidates, f), Map([c], f), NotBlank);
    assert [c][1..] == [];
    FilterOne(f(c), NotBlank);
  }

  lemma {:induction false} AttributesAreCandidates(candidates: seq<string>)
    ensures All(Attributes(candidates), IsAttribute)
  {
    if candidates != [] {
      CandidateAttributeFacts(candidates[0]);
      AttributesAreCandidates(candidates[1..]);
    }
  }

  // ---------------------------------------------------------------------------------------------
  // Writing candidates in

  /** The attribute lines, each ended by eol. */
  function Block(attributes: seq<string>, eol: string): string {
    if attributes == [] then "" else attributes[0] + eol + Block(attributes[1..], eol)
  }

  /** strings.Join. */
  function Join(lines: seq<string>, sep: string): string {
    if lines == [] then "" else if |lines| == 1 then lines[0] else lines[0] + sep + Join(lines[1..], sep)
  }

  lemma {:induction false} JoinIsBlock(lines: seq<string>, eol: string)
    requires lines != []
    ensures Join(lines, eol) + eol == Block(lines, eol)
  {
    if |lines| == 1 {
      assert lines[1..] == [];
      assert Block(lines, eol) == lines[0] + eol + "";
    } else {
      JoinIsBlock(lines[1..], eol);
      assert Join(lines, eol) + eol == lines[0] + eol + (Join(lines[1..], eol) + eol);
    }
  }

  function Eol(sdp: string): string {
    if Contains(sdp, "\r\n") then "\r\n" else "\n"
  }

  /** The text with its last line ended. */
  function Ended(sdp: string, eol: string): string {
    if sdp != "" && !Terminated(sdp) then sdp + eol else sdp
  }

  function Inlined(sdp: string, candidates: seq<string>): string {
    var attributes := Attributes(candidates);
    var ls := Lines(sdp);
    var k := Anchor(ls);
    if attributes == [] then sdp
    else if k < |ls| then Concat(ls[..k]) + Block(attributes, Eol(sdp)) + Concat(ls[k..])
    else Ended(sdp, Eol(sdp)) + Block(attributes, Eol(sdp))
  }

  lemma BlockIs(a: seq<string>, b: seq<string>, x: string, eol: string)
    ensures Block([], eol) == "" && Block([x], eol) == x + eol
    ensures Block(a + b, eol) == Block(a, eol) + Block(b, eol)
  {
    assert [x][1..] == [];
    if a == [] {
      assert a + b == b;
    } else {
      BlockIs(a[1..], b, x, eol);
      assert (a + b)[1..] == a[1..] + b;
      var first := a[0] + eol;
      assert first + (Block(a[1..], eol) + Block(b, eol)) == (first + Block(a[1..], eol)) + Block(b, eol);
    }
  }

  lemma InlinedMeans(sdp: string, candidates: seq<string>)
    ensures WrittenInto(sdp, Attributes(candidates), Inlined(sdp, candidates))
  {
    hide FirstMediaAttribute, Attributes, Block, Anchor, Lines, Concat, Contains;
    AnchorMeans(sdp);
    var k := Anchor(Lines(sdp));
    if k < |Lines(sdp)| {
      CutAtLine(sdp, k);
      assert FirstMediaAttribute(sdp, |Concat(Lines(sdp)[..k])|);
    }
  }

  /** out is sdp with the attributes in front of its first media attribute or, if there is none, after the last
      line, which is ended first; each ends the way the lines of the offer do. */
  ghost predicate WrittenInto(sdp: string, x: seq<string>, out: string) {
    var eol := if Contains(sdp, "\r\n") then "\r\n" else "\n";
    && (x == [] ==> out == sdp)
    && (forall at: nat :: x != [] && FirstMediaAttribute(sdp, at) ==> out == sdp[..at] + Block(x, eol) + sdp[at..])
    && (x != [] && (forall p: nat :: !FirstMediaAttribute(sdp, p)) ==>
        out == sdp + (if sdp == "" || sdp[|sdp| - 1] == LF then "" else eol) + Block(x, eol))
  }

  method InlineCandidates(sdp: string, candidates: seq<string>) returns (out: string)
    ensures out == Inlined(sdp, candidates)
    ensures WrittenInto(sdp, Attributes(candidates), out)
  {
    InlinedMeans(sdp, candidates);
    hide WrittenInto, Attributes, Block, Anchor, Lines, Concat, Contains;
    var lines := AttributeLines(candidates);
    if |lines| == 0 {
      return sdp;
    }
    var eol := "\n";
    if Contains(sdp, "\r\n") {
      eol := "\r\n";
    }
    var insert := Join(lines, eol) + eol;
    JoinIsBlock(lines, eol);
    var at := MediaAttributeOffset(sdp);
    if at >= 0 {
      CutAtLine(sdp, Anchor(Lines(sdp)));
      return sdp[..at] + insert + sdp[at..];
    }
    out := sdp;
    if sdp != "" && sdp[|sdp| - 1] != LF {
      out := out + eol;
    }
    out := out + insert;
  }

  /** The first loop of the above. */
  method AttributeLines(candidates: seq<string>) returns (lines: seq<string>)
    ensures lines == Attributes(candidates)
  {
    lines := [];
    for i := 0 to |candidates|
      invariant lines == Attributes(candidates[..i])
    {
      assert candidates[..i + 1] == candidates[..i] + [candidates[i]];
      AttributesSnoc(candidates[..i], candidates[i]);
      var line := CandidateAttribute(candidates[i]);
      if line != "" {
        lines := lines + [line];
      }
    }
    assert candidates[..|candidates|] == candidates;
  }

  lemma CutAtLine(s: string, k: nat)
    requires k <= |Lines(s)|
    ensures var at := |Concat(Lines(s)[..k])|;
      at <= |s| && s[..at] == Concat(Lines(s)[..k]) && s[at..] == Concat(Lines(s)[k..])
  {
    var ls := Lines(s);
    LinesOfText(s);
    assert ls == ls[..k] + ls[k..];
    ConcatAppend(ls[..k], ls[k..]);
  }

  /** The lines an insertion adds, as a reader of the result sees them. One candidate is one line
      unless it has a line feed inside. */
  function Inserted(attributes: seq<string>): seq<string> {
    if attributes == [] then [] else Contents(Lines(attributes[0])) + Inserted(attributes[1..])
  }

  lemma EndedKeepsContents(s: string, eol: string)
    requires eol == "\n" || eol == "\r\n"
    ensures Contents(Lines(Ended(s, eol))) == Contents(Lines(s))
    ensures Ended(s, eol) == "" || Terminated(Ended(s, eol))
  {
    if s != "" && !Terminated(s) {
      LinesExtendLast(s, eol);
      ExtendLastKeepsContents(Lines(s), eol);
    }
  }

  lemma {:induction false} BlockContents(attributes: seq<string>, eol: string)
    requires eol == "\n" || eol == "\r\n"
    requires All(attributes, IsAttribute)
    ensures Contents(Lines(Block(attributes, eol))) == Inserted(attributes)
    ensures attributes != [] ==> Terminated(Block(attributes, eol))
  {
    if attributes != [] {
      var a := attributes[0];
      var rest := Block(attributes[1..], eol);
      BlockContents(attributes[1..], eol);
      assert IsAttribute(a);
      NotSpaceNotLF(a);
      EndedKeepsContents(a, eol);
      LinesAppend(a + eol, rest);
      MapAppend(Lines(a + eol), Lines(rest), Content);
    }
  }

  lemma NotSpaceNotLF(a: string)
    requires a != "" && Trimmed(a)
    ensures !Terminated(a) && Content(a) == a
  {}

  /** The lines before the anchor are all ended, so cutting there and joining again is safe. */
  lemma LinesBeforeAreEnded(s: string, k: nat)
    requires k < |Lines(s)|
    ensures var a := Concat(Lines(s)[..k]);
      && (a == "" || Terminated(a)) && Lines(a) == Lines(s)[..k]
      && Lines(Concat(Lines(s)[k..])) == Lines(s)[k..]
  {
    var ls := Lines(s);
    LinesOfText(s);
    assert k > 0 ==> Terminated(ls[..k][k - 1]);
    WellFormedParts(ls, k);
    hide WellFormed, Terminated, IsLine;
    LinesOfConcat(ls[..k]);
    LinesOfConcat(ls[k..]);
    if k > 0 { LastLineTerminated(Concat(ls[..k])); }
  }

  lemma WellFormedParts(ls: seq<string>, k: nat)
    requires WellFormed(ls) && k <= |ls|
    ensures WellFormed(ls[..k]) && WellFormed(ls[k..])
  {}

  lemma MapCut(ls: seq<string>, k: nat)
    requires k <= |ls|
    ensures Contents(ls[..k]) == Contents(ls)[..k] && Contents(ls[k..]) == Contents(ls)[k..]
  {
    assert ls == ls[..k] + ls[k..];
    MapAppend(ls[..k], ls[k..], Content);
  }

  /** Inlining inserts the candidate lines in one place and changes no other line's content. */
  lemma InlinedContents(sdp: string, candidates: seq<string>)
    ensures var cs := Contents(Lines(sdp)); var k := Anchor(Lines(sdp));
      Contents(Lines(Inlined(sdp, candidates))) == cs[..k] + Inserted(Attributes(candidates)) + cs[k..]
  {
    hide Lines, Block, Attributes, Content, IsAttribute;
    var attributes := Attributes(candidates);
    AttributesAreCandidates(candidates);
    var ls := Lines(sdp);
    var k := Anchor(ls);
    var eol := Eol(sdp);
    var block := Block(attributes, eol);
    if attributes != [] {
      BlockContents(attributes, eol);
      if k < |ls| {
        InsertedInside(sdp, k, block);
      } else {
        InsertedAtEnd(sdp, eol, block);
      }
    }
  }

  lemma InsertedInside(sdp: string, k: nat, block: string)
    requires k < |Lines(sdp)| && Terminated(block)
    ensures var ls := Lines(sdp);
      Contents(Lines(Concat(ls[..k]) + block + Concat(ls[k..]))) ==
      Contents(ls)[..k] + Contents(Lines(block)) + Contents(ls)[k..]
  {
    var ls := Lines(sdp);
    var a, b := Concat(ls[..k]), Concat(ls[k..]);
    LinesBeforeAreEnded(sdp, k);
    LinesAppend(a, block);
    LinesAppend(a + block, b);
    MapAppend(ls[..k], Lines(block), Content);
    MapAppend(ls[..k] + Lines(block), ls[k..], Content);
    MapCut(ls, k);
  }

  lemma InsertedAtEnd(sdp: string, eol: string, block: string)
    requires eol == "\n" || eol == "\r\n"
    ensures Contents(Lines(Ended(sdp, eol) + block)) == Contents(Lines(sdp)) + Contents(Lines(block))
  {
    EndedKeepsContents(sdp, eol);
    LinesAppend(Ended(sdp, eol), block);
    MapAppend(Lines(Ended(sdp, eol)), Lines(block), Content);
  }

  predicate OneLine(candidate: string) {
    Free(TrimSpace(candidate), LF)
  }

  lemma {:induction false} OneLineInserted(candidates: seq<string>)
    requires All(candidates, OneLine)
    ensures Inserted(Attributes(candidates)) == Attributes(candidates)
  {
    if candidates != [] {
      var c := candidates[0];
      assert OneLine(c);
      assert forall i :: 0 <= i < |candidates[1..]| ==> candidates[1..][i] == candidates[i + 1];
      OneLineInserted(candidates[1..]);
      var x := CandidateAttribute(c);
      CandidateAttributeFacts(c);
      if x != "" {
        AttributesCons(c, candidates[1..]);
        assert candidates == [c] + candidates[1..];
        NotSpaceNotLF(x);
        SingleLine(x);
        assert [x][1..] == [];
      }
    }
  }

  lemma AttributesCons(c: string, candidates: seq<string>)
    ensures var x := CandidateAttribute(c);
      Attributes([c] + candidates) == (if x == "" then [] else [x]) + Attributes(candidates)
  {
    assert ([c] + candidates)[1..] == candidates;
    var m := Map(candidates, CandidateAttribute);
    assert ([CandidateAttribute(c)] + m)[1..] == m;
  }

  // ---------------------------------------------------------------------------------------------
  // Reading candidates out

  /** The values of the lines with a prefix, each written with another one. */
  function Extract(contents: seq<string>, prefix: string, k: string): seq<string> {
    if contents == [] then []
    else if prefix <= contents[0] then [k + contents[0][|prefix|..]] + Extract(contents[1..], prefix, k)
    else Extract(contents[1..], prefix, k)
  }

  lemma {:induction false} ExtractAppend(a: seq<string>, b: seq<string>, prefix: string, k: string)
    ensures Extract(a + b, prefix, k) == Extract(a, prefix, k) + Extract(b, prefix, k)
  {
    if a == [] {
      assert a + b == b;
    } else {
      ExtractAppend(a[1..], b, prefix, k);
      assert (a + b)[1..] == a[1..] + b;
    }
  }

  function CandidatesOf(contents: seq<string>): seq<string> {
    Extract(contents, CANDIDATE_LINE, CANDIDATE)
  }

  /** The candidates a reader of the SDP finds, line by line. */
  function CandidatesIn(sdp: string): seq<string> {
    CandidatesOf(Contents(Lines(sdp)))
  }

  method AnswerCandidates(sdp: string) returns (out: seq<string>)
    ensures out == CandidatesIn(sdp)
  {
    out := [];
    var lines := SplitLF(sdp);
    ghost var read := Map(lines, TrimCR);
    for i := 0 to |lines|
      invariant out == CandidatesOf(read[..i])
    {
      MapAt(lines, TrimCR, i);
      ExtractSnoc(read, i, CANDIDATE_LINE, CANDIDATE);
      var value := CutPrefix(TrimRight(lines[i], {CR}), CANDIDATE_LINE);
      if value.Some? {
        out := out + [CANDIDATE + value.value];
      }
    }
    assert read[..|lines|] == read;
    SplitReadsContents(sdp);
    PrefixIsFree();
    ExtractAppend(Contents(Lines(sdp)), LastPiece(sdp), CANDIDATE_LINE, CANDIDATE);
    ExtractBlank(sdp, CANDIDATE_LINE, CANDIDATE);
  }

  lemma ExtractSnoc(contents: seq<string>, i: nat, prefix: string, k: string)
    requires i < |contents|
    ensures Extract(contents[..i + 1], prefix, k) == Extract(contents[..i], prefix, k)
      + if prefix <= contents[i] then [k + contents[i][|prefix|..]] else []
  {
    assert contents[..i + 1] == contents[..i] + [contents[i]];
    ExtractAppend(contents[..i], [contents[i]], prefix, k);
    assert [contents[i]][1..] == [];
  }

  lemma ExtractBlank(s: string, prefix: string, k: string)
    requires prefix != ""
    ensures Extract(LastPiece(s), prefix, k) == []
  {
    assert [""][1..] == [];
  }

  predicate HasInlineCandidate(sdp: string) {
    HasLineWith(sdp, CANDIDATE_LINE)
  }

  predicate HasLineWith(sdp: string, prefix: string) {
    prefix <= sdp || Contains(sdp, "\n" + prefix)
  }

  /** The quick test for inline candidates agrees with actually reading them. */
  lemma InlineCandidateIffRead(sdp: string)
    ensures HasInlineCandidate(sdp) <==> CandidatesIn(sdp) != []
  {
    PrefixIsFree();
    LineWithPrefixIffRead(sdp, CANDIDATE_LINE, CANDIDATE);
  }

  lemma {:induction false} LineWithPrefixIffRead(sdp: string, prefix: string, k: string)
    requires prefix != "" && Free(prefix, LF) && prefix[|prefix| - 1] != CR
    ensures HasLineWith(sdp, prefix) <==> Extract(Contents(Lines(sdp)), prefix, k) != []
    decreases |sdp|
  {
    if sdp == "" {
      assert forall i :: 0 <= i <= |sdp| ==> |sdp[i..]| < |"\n" + prefix|;
    } else {
      var n := LineLength(sdp);
      var line, rest := sdp[..n], sdp[n..];
      FirstLine(sdp);
      PrefixSurvivesTrimRight(line, {CR, LF}, prefix);
      assert ([line] + Lines(rest))[1..] == Lines(rest);
      LineWithPrefixIffRead(rest, prefix, k);
      FirstLineOrLater(sdp, prefix);
    }
  }

  lemma FirstLineOrLater(sdp: string, prefix: string)
    requires sdp != "" && prefix != "" && Free(prefix, LF)
    ensures var n := LineLength(sdp);
      HasLineWith(sdp, prefix) <==> prefix <= sdp[..n] || HasLineWith(sdp[n..], prefix)
  {
    PrefixInFirstLine(sdp, prefix);
    if Contains(sdp, "\n" + prefix) { LaterLine(sdp, prefix); }
    if HasLineWith(sdp[LineLength(sdp)..], prefix) { LineAfterFirst(sdp, prefix); }
  }

  lemma PrefixInFirstLine(sdp: string, prefix: string)
    requires sdp != "" && prefix != "" && Free(prefix, LF)
    ensures prefix <= sdp <==> prefix <= sdp[..LineLength(sdp)]
  {
    var n := LineLength(sdp);
    assert sdp[..n][n - 1] == sdp[n - 1];
    assert prefix <= sdp ==> sdp[..|prefix|] == prefix;
  }

  lemma LineAfterFirst(sdp: string, prefix: string)
    requires sdp != "" && prefix != "" && HasLineWith(sdp[LineLength(sdp)..], prefix)
    ensures Contains(sdp, "\n" + prefix)
  {
    var n := LineLength(sdp);
    var rest := sdp[n..];
    if Contains(rest, "\n" + prefix) {
      ContainsInSuffix(sdp, n, "\n" + prefix);
    } else {
      assert rest != "";
      assert sdp[..n][n - 1] == sdp[n - 1] == LF;
      assert sdp[n - 1..] == "\n" + rest;
      assert "\n" + prefix <= sdp[n - 1..];
    }
  }

  /** A line feed with the prefix after it ends the first line or comes later. */
  lemma LaterLine(sdp: string, prefix: string)
    requires sdp != "" && Contains(sdp, "\n" + prefix)
    ensures HasLineWith(sdp[LineLength(sdp)..], prefix)
  {
    var n := LineLength(sdp);
    var sub := "\n" + prefix;
    var i :| 0 <= i <= |sdp| && sub <= sdp[i..];
    assert sub[0] == LF && sub[1..] == prefix && sdp[i] == sub[0];
    LineFeedEnds(sdp, i);
    assert sdp[i + 1..] == sdp[i..][1..];
    if i >= n { assert sdp[i..] == sdp[n..][i - n..]; }
  }

  lemma LineFeedEnds(sdp: string, i: nat)
    requires i < |sdp| && sdp[i] == LF
    ensures i >= LineLength(sdp) - 1
  {
    assert i < LineLength(sdp) ==> sdp[..LineLength(sdp)][i] == LF;
  }

  /** A candidate as a CANDIDATEADD signal normally carries it. */
  predicate Canonical(candidate: string) {
    CANDIDATE <= candidate && Trimmed(candidate) && Free(candidate, LF)
  }

  lemma {:induction false} CanonicalReadsBack(candidates: seq<string>)
    requires All(candidates, Canonical)
    ensures CandidatesOf(Attributes(candidates)) == candidates
  {
    if candidates != [] {
      var c := candidates[0];
      var rest := candidates[1..];
      assert candidates == [c] + rest;
      assert Canonical(c);
      assert forall i :: 0 <= i < |rest| ==> rest[i] == candidates[i + 1];
      CanonicalReadsBack(rest);
      PrefixIsFree();
      CanonicalAttribute(c, ATTRIBUTE, CANDIDATE);
      AttributesCons(c, rest);
      var x := CandidateAttribute(c);
      assert ([x] + Attributes(rest))[1..] == Attributes(rest);
    }
  }

  lemma CanonicalAttribute(c: string, a: string, k: string)
    requires a != "" && k != "" && k <= c && Trimmed(c) && k[0] != a[0]
    ensures AttributeOf(c, a, k) == a + c && a + k <= a + c && (a + c)[|a + k|..] == c[|k|..] && c == k + c[|k|..]
  {
    TrimmedIsFixed(c);
  }

  /** Writing candidates in and reading them out again gives them back, in order and unchanged,
      between those that were already before and after the place of insertion. */
  lemma InlinedReadsBack(sdp: string, candidates: seq<string>)
    requires All(candidates, Canonical)
    ensures var cs := Contents(Lines(sdp)); var k := Anchor(Lines(sdp));
      CandidatesIn(Inlined(sdp, candidates)) == CandidatesOf(cs[..k]) + candidates + CandidatesOf(cs[k..])
  {
    var cs := Contents(Lines(sdp));
    var k := Anchor(Lines(sdp));
    CanonicalIsOneLine(candidates);
    InlinedContents(sdp, candidates);
    OneLineInserted(candidates);
    CanonicalReadsBack(candidates);
    ExtractAppend(cs[..k] + Attributes(candidates), cs[k..], CANDIDATE_LINE, CANDIDATE);
    ExtractAppend(cs[..k], Attributes(candidates), CANDIDATE_LINE, CANDIDATE);
  }

  lemma CanonicalIsOneLine(candidates: seq<string>)
    requires All(candidates, Canonical)
    ensures All(candidates, OneLine)
  {
    forall i | 0 <= i < |candidates| ensures OneLine(candidates[i]) {
      assert Canonical(candidates[i]);
      TrimmedIsFixed(candidates[i]);
    }
  }

  // ---------------------------------------------------------------------------------------------
  // The whole rewrite

  /** The offer as posted. */
  function Rewritten(sdp: string, candidates: seq<string>): string {
    Inlined(Stripped(sdp), candidates)
  }

  predicate NotCandidate(content: string) {
    !(CANDIDATE_LINE <= content)
  }

  /** Everything in an SDP that is not a candidate, in order. */
  function Others(contents: seq<string>): seq<string> {
    Filter(contents, NotCandidate)
  }

  lemma {:induction false} StrippingKeepsOthers(ls: seq<string>)
    ensures Others(Contents(Filter(ls, StaysIn))) == Others(Contents(ls))
  {
    if ls != [] {
      StrippingKeepsOthers(ls[1..]);
      var kept := Filter(ls[1..], StaysIn);
      assert ([ls[0]] + kept)[1..] == kept;
      assert ([Content(ls[0])] + Contents(kept))[1..] == Contents(kept);
      assert ([Content(ls[0])] + Contents(ls[1..]))[1..] == Contents(ls[1..]);
    }
  }

  /** Whatever is not a candidate line reads the same, in the same order, after the rewrite. */
  lemma RewriteKeepsOtherLines(sdp: string, candidates: seq<string>)
    requires All(candidates, OneLine)
    ensures Others(Contents(Lines(Rewritten(sdp, candidates)))) == Others(Contents(Lines(sdp)))
  {
    var s := Stripped(sdp);
    var cs := Contents(Lines(s));
    var k := Anchor(Lines(s));
    var attributes := Attributes(candidates);
    StrippedKeepsTheOtherLines(sdp);
    StrippingKeepsOthers(Lines(sdp));
    InlinedContents(s, candidates);
    OneLineInserted(candidates);
    AttributesAreCandidates(candidates);
    forall i | 0 <= i < |attributes| ensures !NotCandidate(attributes[i]) {
      assert IsAttribute(attributes[i]);
    }
    FilterOfNone(attributes, NotCandidate);
    FilterInserted(cs, k, attributes, NotCandidate);
  }

  lemma FilterInserted(cs: seq<string>, k: nat, xs: seq<string>, keep: string -> bool)
    requires k <= |cs| && Filter(xs, keep) == []
    ensures Filter(cs[..k] + xs + cs[k..], keep) == Filter(cs, keep)
  {
    FilterAppend(cs[..k] + xs, cs[k..], keep);
    FilterAppend(cs[..k], xs, keep);
    FilterAppend(cs[..k], cs[k..], keep);
    assert cs == cs[..k] + cs[k..];
  }

  // ---------------------------------------------------------------------------------------------
  // No relay candidate is posted, with one exception

  /** A candidate whose "typ" is the end of its first word: the test on the signal does not see it. */
  predicate Disguised(candidate: string) {
    var fs := Fields(candidate);
    |fs| >= 2 && fs[1] == "relay" && JoinedTyp(fs[0])
  }

  lemma RelayTypeCons(w: string, fs: seq<string>)
    ensures RelayType([w] + fs) <==> if w == "typ" then fs != [] && fs[0] == "relay" else RelayType(fs)
  {
    if w == "typ" {
      TypFirst(fs);
    } else if RelayType(fs) {
      LaterTyp(w, fs);
    } else if RelayType([w] + fs) {
      TypIsLater(w, fs);
    }
  }

  lemma TypFirst(fs: seq<string>)
    ensures RelayType(["typ"] + fs) <==> fs != [] && fs[0] == "relay"
  {
    var ws := ["typ"] + fs;
    assert ws[0] == "typ" && (fs != [] ==> ws[1] == fs[0]) && NoTypBefore(ws, 0);
  }

  lemma LaterTyp(w: string, fs: seq<string>)
    requires w != "typ" && RelayType(fs)
    ensures RelayType([w] + fs)
  {
    var ws := [w] + fs;
    var i :| 0 <= i < |fs| - 1 && fs[i] == "typ" && fs[i + 1] == "relay" && NoTypBefore(fs, i);
    assert ws[i + 1] == "typ" && ws[i + 2] == "relay" && NoTypBefore(ws, i + 1);
  }

  lemma TypIsLater(w: string, fs: seq<string>)
    requires w != "typ" && RelayType([w] + fs)
    ensures RelayType(fs)
  {
    var ws := [w] + fs;
    var i :| 0 <= i < |ws| - 1 && ws[i] == "typ" && ws[i + 1] == "relay" && NoTypBefore(ws, i);
    assert fs[i - 1] == "typ" && fs[i] == "relay";
    assert NoTypBefore(fs, i - 1) by { assert forall j :: 0 <= j < i - 1 ==> fs[j] == ws[j + 1]; }
  }

  /** The fields of a prefix p directly followed by v: p joins the first word of v, if v begins with one. */
  lemma FieldsAfterPrefix(p: string, v: string) returns (w: string, rest: string)
    requires IsWord(p)
    ensures v == w + rest && Fields(p + v) == [p + w] + Fields(rest)
    ensures if w == "" then Fields(v) == Fields(rest) else Fields(v) == [w] + Fields(rest)
  {
    if v == "" || IsSpace(v[0]) {
      w, rest := "", v;
      FieldsOfWord(p, v);
      assert p + w == p;
    } else {
      w, rest := FirstWord(v);
      assert p + v == (p + w) + rest;
      FieldsOfWord(p + w, rest);
    }
  }

  predicate Prefix(p: string) {
    p == "a=" || p == "candidate:" || p == "a=candidate:"
  }

  predicate JoinedTyp(w: string) {
    w == "candidate:typ" || w == "a=typ" || w == "a=candidate:typ"
  }

  lemma JoinedWord(p: string, w: string)
    requires Prefix(p) && (p == "a=" ==> !("candidate:" <= w))
    ensures p + w != "typ" && (JoinedTyp(p + w) <==> w == "typ")
  {
    if w == "typ" {
      assert "a=" + "typ" == "a=typ" && "candidate:" + "typ" == "candidate:typ";
      assert "a=candidate:" + "typ" == "a=candidate:typ";
    }
    if p == "candidate:" {
      assert p + w == "candidate:typ" ==> w == "candidate:typ"[10..] == "typ";
      assert (p + w)[0] == 'c';
    } else if p == "a=" {
      assert (p + w)[0] == 'a';
      assert p + w == "a=typ" ==> w == "a=typ"[2..] == "typ";
      var u := "a=candidate:typ"[2..];
      assert "candidate:" <= u;
      assert p + w == "a=candidate:typ" ==> w == u;
    } else {
      assert (p + w)[0] == 'a';
      assert p + w == "a=candidate:typ" ==> w == "a=candidate:typ"[12..] == "typ";
      assert |p + w| >= 12;
    }
  }

  lemma PrefixedRelay(c: string, p: string, v: string)
    requires Prefix(p) && Fields(c) == Fields(p + v) && !RelayCandidate(c)
    requires p == "a=" ==> !("candidate:" <= v)
    ensures RelayCandidate(v) <==> Disguised(c)
  {
    hide RelayType, Fields;
    var w, rest := FieldsAfterPrefix(p, v);
    RelayTypeCons(p + w, Fields(rest));
    RelayTypeCons(w, Fields(rest));
    JoinedWord(p, w);
  }

  lemma FormCases(t: string, v: string, a: string, k: string) returns (p: string)
    requires IsForm(t, v, a, k) && a != "" && k != "" && a[0] != k[0]
    ensures t == p + v && (p == "" || p == a || p == k || p == a + k)
    ensures p == "" ==> v != "" && !(k <= v) && !(a <= v)
    ensures p == a ==> !(k <= v)
  {
    if t == a + (k + v) {
      p := a + k;
      assert t == p + v && |p| > |a|;
    } else if t == k + v {
      p := k;
    } else if t == a + v {
      p := a;
    } else {
      p := "";
      assert p + v == v;
    }
  }

  /** What the test on the signal lets through is written as a relay line exactly if it is disguised. */
  lemma RelayLineIffDisguised(c: string)
    requires !RelayCandidate(c)
    ensures RelayContent(CandidateAttribute(c)) <==> Disguised(c)
  {
    hide RelayType, CandidateAttribute, Fields, TrimSpace, IsForm, RelayContent;
    var x, t := CandidateAttribute(c), TrimSpace(c);
    FieldsOfTrimmed(c);
    var v := CandidateForms(c);
    if x == "" {
      NoFields(t);
      BlankNotRelay();
    } else {
      var p := FormCases(t, v, ATTRIBUTE, CANDIDATE);
      RelayContentOf(x, v);
      if p != "" {
        PrefixedRelay(c, p, v);
      } else {
        NotDisguised(t, v);
      }
    }
  }

  lemma NoFields(t: string)
    requires t == "" || t == "a="
    ensures |Fields(t)| <= 1
  {
    if t != "" {
      FieldsOfWord("a=", "");
      assert "a=" + "" == t;
    }
  }

  lemma NotDisguised(t: string, v: string)
    requires t == "" + v && v != "" && Trimmed(t) && !("candidate:" <= v) && !("a=" <= v)
    ensures t == v && |Fields(t)| > 0 && !JoinedTyp(Fields(t)[0])
  {
    var w, rest := FirstWord(t);
    PrefixLonger("candidate:", w, rest);
    PrefixLonger("a=", w, rest);
    if JoinedTyp(w) { JoinedStarts(w); }
  }

  lemma PrefixLonger(x: string, w: string, rest: string)
    ensures x <= w ==> x <= w + rest
  {}

  lemma JoinedStarts(w: string)
    requires JoinedTyp(w)
    ensures "candidate:" <= w || "a=" <= w
  {
    assert "candidate:" <= "candidate:typ" && "a=" <= "a=typ" && "a=" <= "a=candidate:typ";
  }

  lemma RelayContentOf(x: string, v: string)
    requires x == CANDIDATE_LINE + v
    ensures RelayContent(x) <==> RelayCandidate(v)
  {
    assert x[12..] == v;
  }

  /** A content that would be removed from an offer. */
  predicate RelayContent(content: string) {
    "a=candidate:" <= content && RelayCandidate(content[12..])
  }

  predicate NoRelay(content: string) {
    !RelayContent(content)
  }

  lemma {:induction false} StayingContents(ls: seq<string>)
    ensures All(ls, StaysIn) <==> All(Contents(ls), NoRelay)
  {
    if ls != [] {
      StayingContents(ls[1..]);
      RelayLineIs(ls[0]);
      hide Content, RelayLine, RelayContent;
      AllCons(ls[0], ls[1..], StaysIn);
      AllCons(Content(ls[0]), Contents(ls[1..]), NoRelay);
      assert ls == [ls[0]] + ls[1..];
    }
  }

  lemma {:induction false} NoRelayInAttributes(candidates: seq<string>)
    requires forall i :: 0 <= i < |candidates| ==> !RelayCandidate(candidates[i])
    ensures All(Attributes(candidates), NoRelay) <==> forall i :: 0 <= i < |candidates| ==> !Disguised(candidates[i])
  {
    hide RelayCandidate, Disguised, RelayContent, CandidateAttribute;
    if candidates != [] {
      var c, cs := candidates[0], candidates[1..];
      NoRelayInAttributes(cs);
      RelayLineIffDisguised(c);
      AttributesCons(c, cs);
      assert candidates == [c] + cs;
      var x := CandidateAttribute(c);
      if x == "" { BlankNotRelay(); }
      AllCons(x, Attributes(cs), NoRelay);
    }
  }

  lemma BlankNotRelay()
    ensures !RelayContent("")
  {}

  lemma AllCons<T>(x: T, xs: seq<T>, p: T -> bool)
    ensures All([x] + xs, p) <==> p(x) && All(xs, p)
  {
    forall i | 0 <= i < |xs| ensures xs[i] == ([x] + xs)[i + 1] {}
    assert ([x] + xs)[0] == x;
  }

  /** No relay candidate is posted, whatever the offer had and although only the signals of the candidates were
      tested, exactly if none of the candidates is disguised. */
  lemma NoRelayPostedIff(sdp: string, candidates: seq<string>)
    requires All(candidates, OneLine) && forall i :: 0 <= i < |candidates| ==> !RelayCandidate(candidates[i])
    ensures var ls := Lines(Rewritten(sdp, candidates));
      (forall i :: 0 <= i < |ls| ==> !RelayLine(ls[i])) <==>
      forall i :: 0 <= i < |candidates| ==> !Disguised(candidates[i])
  {
    hide RelayCandidate, Disguised, RelayLine, RelayContent, Anchor;
    var s := Stripped(sdp);
    var cs, k := Contents(Lines(s)), Anchor(Lines(s));
    StrippedKeepsTheOtherLines(sdp);
    StayingContents(Lines(s));
    InlinedContents(s, candidates);
    OneLineInserted(candidates);
    StayingContents(Lines(Rewritten(sdp, candidates)));
    NoRelayInAttributes(candidates);
    AllInserted(cs, k, Attributes(candidates), NoRelay);
    assert All(Lines(Rewritten(sdp, candidates)), StaysIn) <==>
      forall i :: 0 <= i < |Lines(Rewritten(sdp, candidates))| ==> StaysIn(Lines(Rewritten(sdp, candidates))[i]);
  }

  lemma AllInserted<T>(cs: seq<T>, k: nat, xs: seq<T>, p: T -> bool)
    requires k <= |cs| && All(cs, p)
    ensures All(cs[..k] + xs + cs[k..], p) <==> All(xs, p)
  {
    var all := cs[..k] + xs + cs[k..];
    forall i | 0 <= i < |xs| ensures all[k + i] == xs[i] {}
  }

  /** Such a candidate exists. */
  lemma DisguisedGetsThrough()
    ensures !RelayCandidate("candidate:typ relay") && RelayLine(CandidateAttribute("candidate:typ relay"))
  {
    TwoFields();
    assert JoinedTyp("candidate:typ");
    hide *;
    WordsDecide("candidate:typ relay", "candidate:typ", "relay");
    RelayLineIffDisguised("candidate:typ relay");
    RelayAttributeIsLine("candidate:typ relay");
  }

  lemma WordsDecide(c: string, a: string, b: string)
    requires Fields(c) == [a, b] && JoinedTyp(a) && b == "relay"
    ensures !RelayCandidate(c) && Disguised(c)
  {
    hide Fields;
    assert a != "typ" && b != "typ";
    NoTypNoRelay(c);
  }

  lemma TwoFields()
    ensures Fields("candidate:typ relay") == ["candidate:typ", "relay"]
  {
    var fs := ["candidate:typ", "relay"];
    assert fs[1..] == ["relay"];
    assert Spaced(fs) == "candidate:typ" + (" " + "relay") == "candidate:typ relay";
    assert IsWord("candidate:typ") && IsWord("relay") && All(fs, IsWord);
    hide *;
    FieldsOfSpaced(fs);
  }

  lemma RelayAttributeIsLine(c: string)
    requires RelayContent(CandidateAttribute(c))
    ensures RelayLine(CandidateAttribute(c))
  {
    hide CandidateAttribute, RelayCandidate;
    CandidateAttributeFacts(c);
    NotSpaceNotLF(CandidateAttribute(c));
    RelayLineIs(CandidateAttribute(c));
  }
}
