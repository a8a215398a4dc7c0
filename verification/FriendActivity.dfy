/** The shared join log: its text form, the sorted rewrite of the file and one process's store. Who
    wins when several processes share the file is in SharedLog. */
module FriendActivity {
  import opened GoStrings
  import opened GoTime

  const MIN_INT64 := -0x8000_0000_0000_0000
  const MAX_INT64 := 0x7fff_ffff_ffff_ffff

  /** One player's last join, in nanoseconds since 1970. */
  datatype Record = Record(xuid: string, name: string, lastJoin: int)

  type Records = map<string, Record>

  /** Time.Unix: whole seconds, rounded down. */
  function Unix(t: int): (seconds: int)
    ensures seconds * SECOND <= t < seconds * SECOND + SECOND
  {
    t / SECOND
  }

  /** A record as the file keeps it. */
  function Seconds(r: Record): Record {
    r.(lastJoin := Unix(r.lastJoin) * SECOND)
  }

  predicate IsInt64(i: int) {
    MIN_INT64 <= i <= MAX_INT64
  }

  // ---------------------------------------------------------------------------------------------
  // Numbers

  predicate IsDigit(c: char) {
    '0' <= c <= '9'
  }

  predicate AllDigits(s: string) {
    forall i :: 0 <= i < |s| ==> IsDigit(s[i])
  }

  function Digits(n: nat): string {
    (if n < 10 then "" else Digits(n / 10)) + [(n % 10 + 48) as char]
  }

  function DigitsValue(s: string): nat
    requires AllDigits(s)
  {
    if s == "" then 0 else 10 * DigitsValue(s[..|s| - 1]) + (s[|s| - 1] as int - 48)
  }

  /** strconv.FormatInt in base 10. */
  function FormatInt(i: int): string {
    if i < 0 then "-" + Digits(-i) else Digits(i)
  }

  /** strconv.ParseInt in base 10 with 64 bits, None for its errors. */
  function ParseInt(s: string): Option<int> {
    var digits := if s != "" && (s[0] == '+' || s[0] == '-') then s[1..] else s;
    if digits == "" || !AllDigits(digits) then None
    else
      var n: int := DigitsValue(digits);
      var v := if s[0] == '-' then -n else n;
      if IsInt64(v) then Some(v) else None
  }

  lemma {:induction false} DigitsReadBack(n: nat)
    ensures var s := Digits(n); s != "" && AllDigits(s) && DigitsValue(s) == n
  {
    var s := Digits(n);
    if n >= 10 {
      DigitsReadBack(n / 10);
      assert s[..|s| - 1] == Digits(n / 10);
    } else {
      assert s[..|s| - 1] == "";
    }
  }

  /** Nothing in s could end a field or a line, or be trimmed. */
  predicate IsPlain(s: string) {
    s != "" && forall i :: 0 <= i < |s| ==> IsDigit(s[i]) || s[i] == '-'
  }

  lemma ParseSigned(sign: string, s: string)
    requires s != "" && AllDigits(s) && (sign == "" || sign == "-" || sign == "+")
    ensures var v: int := if sign == "-" then 0 - DigitsValue(s) else DigitsValue(s);
      ParseInt(sign + s) ==
        if -9_223_372_036_854_775_808 <= v <= 9_223_372_036_854_775_807 then Some(v) else None
  {
    if sign != "" {
      assert (sign + s)[1..] == s;
    } else {
      assert sign + s == s && IsDigit(s[0]);
    }
  }

  /** Nothing else is a number. */
  lemma ParsedIsSigned(s: string) returns (sign: string, digits: string)
    requires ParseInt(s).Some?
    ensures s == sign + digits && digits != "" && AllDigits(digits) && (sign == "" || sign == "-" || sign == "+")
    ensures -9_223_372_036_854_775_808 <= ParseInt(s).value <= 9_223_372_036_854_775_807
  {
    sign, digits := "", s;
    if s != "" && (s[0] == '+' || s[0] == '-') {
      sign, digits := s[..1], s[1..];
    }
    hide DigitsValue, AllDigits;
  }

  /** A number is written digit by digit. */
  lemma FormatDigit(n: nat, d: nat)
    requires d < 10
    ensures FormatInt(10 * n + d) == (if n == 0 then "" else FormatInt(n)) + ["0123456789"[d]]
    ensures n > 0 ==> FormatInt(0 - n) == "-" + FormatInt(n)
  {
    assert (10 * n + d) / 10 == n && (10 * n + d) % 10 == d;
    DigitIs(d);
  }

  lemma DigitIs(d: nat)
    requires d < 10
    ensures "0123456789"[d] == (d + 48) as char
  {
    var s := "0123456789";
    assert s[0] == '0' && s[1] == '1' && s[2] == '2' && s[3] == '3' && s[4] == '4';
    assert s[5] == '5' && s[6] == '6' && s[7] == '7' && s[8] == '8' && s[9] == '9';
  }

  lemma FormatIntReadBack(i: int)
    requires IsInt64(i)
    ensures IsPlain(FormatInt(i)) && ParseInt(FormatInt(i)) == Some(i)
  {
    hide Digits, DigitsValue, AllDigits, ParseInt, IsPlain;
    var n := if i < 0 then -i else i;
    DigitsReadBack(n);
    ParseSigned(if i < 0 then "-" else "", Digits(n));
    SignedIsPlain(if i < 0 then "-" else "", Digits(n));
    assert i >= 0 ==> "" + Digits(n) == Digits(n);
  }

  lemma SignedIsPlain(sign: string, s: string)
    requires s != "" && AllDigits(s) && (sign == "" || sign == "-")
    ensures IsPlain(sign + s)
  {}

  // ---------------------------------------------------------------------------------------------
  // One line

  /** sanitizeDisplayName. */
  function Sanitized(name: string): string {
    if name == "" then ""
    else if name[0] == ',' then Sanitized(name[1..])
    else [name[0]] + Sanitized(name[1..])
  }

  lemma {:induction false} SanitizedFacts(name: string)
    ensures Free(Sanitized(name), ',')
    ensures Free(Sanitized(name), LF) <==> Free(name, LF)
    ensures Free(name, ',') ==> Sanitized(name) == name
  {
    if name != "" {
      var c, rest := name[0], name[1..];
      assert name == [c] + rest;
      SanitizedFacts(rest);
      FreeCons(c, rest, LF);
      FreeCons(c, rest, ',');
      FreeCons(c, Sanitized(rest), LF);
      FreeCons(c, Sanitized(rest), ',');
    }
  }

  /** Together with the above: what is sanitized is the name without its commas. */
  lemma {:induction false} SanitizedAfterComma(a: string, b: string)
    requires Free(a, ',')
    ensures Sanitized(a + "," + b) == a + Sanitized(b)
  {
    var name := a + "," + b;
    if a == "" {
      assert name[0] == ',' && name[1..] == b;
    } else {
      assert name[0] == a[0] && name[1..] == a[1..] + "," + b;
      SanitizedAfterComma(a[1..], b);
      assert [a[0]] + (a[1..] + Sanitized(b)) == a + Sanitized(b);
    }
  }

  lemma FreeCons(c: char, rest: string, d: char)
    ensures Free([c] + rest, d) <==> c != d && Free(rest, d)
  {
    var s := [c] + rest;
    assert s[0] == c && forall i :: 0 <= i < |rest| ==> s[i + 1] == rest[i];
  }

  function LineOf(r: Record): string {
    r.xuid + "," + r.name + "," + FormatInt(Unix(r.lastJoin))
  }

  function ParseLine(line: string): Option<Record> {
    var i := IndexOf(line, ',');
    if i < 0 then None
    else
      var j := IndexFrom(line, ',', i + 1);
      if j < 0 then None else RecordOf(line[..i], line[i + 1..j], line[j + 1..])
  }

  function RecordOf(id: string, name: string, seconds: string): Option<Record> {
    var xuid, t := TrimSpace(id), ParseInt(TrimSpace(seconds));
    if xuid == "" || t.None? then None else Some(Record(xuid, name, t.value * SECOND))
  }

  /** What the file can hold: this is a condition on the caller's player ID and display name. */
  predicate Clean(r: Record) {
    && r.xuid != "" && Trimmed(r.xuid) && Free(r.xuid, ',') && Free(r.xuid, LF)
    && Free(r.name, ',') && Free(r.name, LF)
    && IsInt64(Unix(r.lastJoin))
  }

  lemma {:induction false} FirstAt(s: string, c: char, from: nat, i: nat)
    requires from <= i < |s| && s[i] == c && forall k :: from <= k < i ==> s[k] != c
    ensures IndexFrom(s, c, from) == i
  {
    var j := IndexFrom(s, c, from);
    assert j >= 0;
  }

  /** The first two commas end the first two fields. */
  lemma FieldsAt(line: string, i: nat, j: nat)
    requires i < j < |line| && line[i] == ',' && line[j] == ','
    requires forall k :: 0 <= k < j && k != i ==> line[k] != ','
    ensures IndexOf(line, ',') == i && IndexFrom(line, ',', i + 1) == j
  {
    FirstAt(line, ',', 0, i);
    FirstAt(line, ',', i + 1, j);
  }

  lemma FieldsOfLine(a: string, b: string, c: string)
    requires Free(a, ',') && Free(b, ',')
    ensures ParseLine(a + "," + b + "," + c) == RecordOf(a, b, c)
  {
    var line, i, j := a + "," + b + "," + c, |a|, |a| + 1 + |b|;
    assert line[..i] == a && line[i + 1..j] == b && line[j + 1..] == c;
    forall k | 0 <= k < j && k != i ensures line[k] != ',' {
      assert line[k] == if k < i then a[k] else b[k - i - 1];
    }
    FieldsAt(line, i, j);
  }

  lemma ParseFields(a: string, b: string, c: string, seconds: int)
    requires Free(a, ',') && Free(b, ',') && Trimmed(a) && a != "" && Trimmed(c) && ParseInt(c) == Some(seconds)
    ensures ParseLine(a + "," + b + "," + c) == Some(Record(a, b, seconds * SECOND))
  {
    FieldsOfLine(a, b, c);
    TrimmedRecord(a, b, c, seconds);
  }

  lemma TrimmedRecord(a: string, b: string, c: string, seconds: int)
    requires Trimmed(a) && a != "" && Trimmed(c) && ParseInt(c) == Some(seconds)
    ensures RecordOf(a, b, c) == Some(Record(a, b, seconds * SECOND))
  {
    TrimmedIsFixed(a);
    TrimmedIsFixed(c);
  }

  lemma CleanLineReadsBack(r: Record)
    requires Clean(r)
    ensures ParseLine(LineOf(r)) == Some(Seconds(r))
  {
    var n := FormatInt(Unix(r.lastJoin));
    FormatIntReadBack(Unix(r.lastJoin));
    PlainIsTrimmed(n);
    ParseFields(r.xuid, r.name, n, Unix(r.lastJoin));
  }

  /** Space around the player ID and the time makes no difference. */
  lemma SpacedLineParses(id: string, name: string, time: string, x: string, seconds: int)
    requires Free(id, ',') && Free(name, ',') && TrimSpace(id) == x != "" && ParseInt(TrimSpace(time)) == Some(seconds)
    ensures ParseLine(id + "," + name + "," + time) == Some(Record(x, name, seconds * SECOND))
  {
    FieldsOfLine(id, name, time);
  }

  /** A line of the file. */
  lemma AnnsLine()
    ensures LineOf(Record("2535", "Ann", 17_000_000_001)) == "2535,Ann,17"
  {
    FormatDigit(0, 1);
    FormatDigit(1, 7);
    assert "" + ["0123456789"[1]] == "1" && "1" + ["0123456789"[7]] == "17";
    assert Unix(17_000_000_001) == 17;
  }

  lemma PlainIsTrimmed(s: string)
    requires IsPlain(s)
    ensures Trimmed(s) && Free(s, LF) && s[|s| - 1] != CR
  {}

  lemma {:induction false} TrimSpaceKeepsFree(s: string, c: char)
    requires Free(s, c)
    ensures Free(TrimSpace(s), c)
  {
    TrimLeftKeepsFree(s, c);
  }

  lemma {:induction false} TrimLeftKeepsFree(s: string, c: char)
    requires Free(s, c)
    ensures Free(TrimLeftSpace(s), c)
  {
    if s != "" && IsSpace(s[0]) { TrimLeftKeepsFree(s[1..], c); }
  }

  lemma RecordIsClean(a: string, b: string, c: string)
    requires Free(a, ',') && Free(a, LF) && Free(b, ',') && Free(b, LF) && RecordOf(a, b, c).Some?
    ensures var r := RecordOf(a, b, c).value; Clean(r) && Seconds(r) == r
  {
    TrimSpaceKeepsFree(a, ',');
    TrimSpaceKeepsFree(a, LF);
    hide Free;
  }

  lemma SliceIsFree(s: string, c: char, i: nat, j: nat)
    requires i <= j <= |s| && forall k :: i <= k < j ==> s[k] != c
    ensures Free(s[i..j], c)
  {}

  lemma ParsedIsClean(line: string)
    requires Free(line, LF) && ParseLine(line).Some?
    ensures var r := ParseLine(line).value; Clean(r) && Seconds(r) == r
  {
    hide RecordOf, Clean;
    var i := IndexOf(line, ',');
    var j := IndexFrom(line, ',', i + 1);
    SliceIsFree(line, ',', 0, i);
    SliceIsFree(line, LF, 0, i);
    SliceIsFree(line, ',', i + 1, j);
    SliceIsFree(line, LF, i + 1, j);
    assert line[0..i] == line[..i];
    RecordIsClean(line[..i], line[i + 1..j], line[j + 1..]);
  }

  // ---------------------------------------------------------------------------------------------
  // The whole file

  function DropCR(s: string): string {
    if s != "" && s[|s| - 1] == CR then s[..|s| - 1] else s
  }

  /** The lines a bufio.Scanner gives. */
  function ScanLines(s: string): (ls: seq<string>)
    ensures forall k :: 0 <= k < |ls| ==> Free(ls[k], LF)
    decreases |s|
  {
    if s == "" then []
    else
      var i := IndexOf(s, LF);
      if i < 0 then [DropCR(s)] else [DropCR(s[..i])] + ScanLines(s[i + 1..])
  }

  lemma ScanStep(s: string, i: nat)
    requires i < |s| && s[i] == LF && forall k :: 0 <= k < i ==> s[k] != LF
    ensures ScanLines(s) == [DropCR(s[..i])] + ScanLines(s[i + 1..])
  {
    FirstAt(s, LF, 0, i);
  }

  lemma ScanLine(line: string)
    requires Free(line, LF)
    ensures ScanLines(line + [LF]) == [DropCR(line)]
  {
    var s := line + [LF];
    assert s[..|line|] == line && s[|line| + 1..] == "";
    ScanStep(s, |line|);
  }

  lemma CutFirstLine(a: string, rest: string, j: nat)
    requires j < |a| && a[j] == LF && forall k :: 0 <= k < j ==> a[k] != LF
    ensures ScanLines(a + rest) == [DropCR(a[..j])] + ScanLines(a[j + 1..] + rest)
  {
    var s := a + rest;
    assert s[..j] == a[..j] && s[j + 1..] == a[j + 1..] + rest;
    ScanStep(s, j);
  }

  /** A text is read line by line, each without the carriage return it may end in; the last need not be ended. */
  lemma LinesScanned(line: string, rest: string)
    requires Free(line, LF)
    ensures ScanLines(line + [LF] + rest) == [DropCR(line)] + ScanLines(rest)
    ensures ScanLines(line) == if line == "" then [] else [DropCR(line)]
    ensures DropCR(line + [CR]) == line
  {
    var s := line + [LF] + rest;
    assert s[..|line|] == line && s[|line| + 1..] == rest;
    ScanStep(s, |line|);
    assert (line + [CR])[..|line|] == line;
  }

  lemma TailTerminated(a: string, j: nat)
    requires j <= |a| && Terminated(a)
    ensures a[j..] == "" || Terminated(a[j..])
  {}

  lemma {:induction false} ScanOneMore(a: string, line: string)
    requires (a == "" || Terminated(a)) && Free(line, LF) && DropCR(line) == line
    ensures ScanLines(a + (line + [LF])) == ScanLines(a) + [line]
    decreases |a|
  {
    if a == "" {
      assert a + (line + [LF]) == line + [LF];
      ScanLine(line);
    } else {
      assert a[|a| - 1] == LF;
      var j := IndexOf(a, LF);
      var rest := a[j + 1..];
      CutFirstLine(a, line + [LF], j);
      ScanStep(a, j);
      TailTerminated(a, j + 1);
      ScanOneMore(rest, line);
      ConsAppend(DropCR(a[..j]), ScanLines(rest), [line]);
    }
  }

  /** The records of the lines that parse, in order. */
  function Entries(lines: seq<string>): seq<Record> {
    if lines == [] then []
    else
      var n := |lines| - 1;
      Entries(lines[..n]) + match ParseLine(lines[n]) { case None => [] case Some(r) => [r] }
  }

  /** from says which lines the entries are parsed from: all that parse, in order, wherever others stand between. */
  ghost predicate ParsedFrom(lines: seq<string>, es: seq<Record>, from: seq<nat>) {
    && |from| == |es|
    && (forall i :: 0 <= i < |es| ==> from[i] < |lines| && ParseLine(lines[from[i]]) == Some(es[i]))
    && (forall i, j :: 0 <= i < j < |es| ==> from[i] < from[j])
    && (forall k :: 0 <= k < |lines| && ParseLine(lines[k]).Some? ==> exists i :: 0 <= i < |es| && from[i] == k)
  }

  lemma {:induction false} EntriesAreParsed(lines: seq<string>) returns (from: seq<nat>)
    ensures ParsedFrom(lines, Entries(lines), from)
  {
    hide ParseLine;
    from := [];
    if lines != [] {
      var n := |lines| - 1;
      var line := lines[n];
      from := EntriesAreParsed(lines[..n]);
      assert lines == lines[..n] + [line];
      EntriesOneMore(lines[..n], line);
      MoreParsed(lines[..n], Entries(lines[..n]), from, line);
      if ParseLine(line).Some? {
        from := from + [n];
      }
    }
  }

  lemma MoreParsed(lines: seq<string>, es: seq<Record>, from: seq<nat>, line: string)
    requires ParsedFrom(lines, es, from)
    ensures match ParseLine(line)
      case None => ParsedFrom(lines + [line], es, from)
      case Some(r) => ParsedFrom(lines + [line], es + [r], from + [|lines|])
  {
    hide ParseLine;
    var all := lines + [line];
    var from' := from + [|lines|];
    forall k | 0 <= k < |lines| && ParseLine(all[k]).Some?
      ensures exists i :: 0 <= i < |es| && from[i] == from'[i] == k
    {
      assert all[k] == lines[k];
    }
    assert from'[|es|] == |lines|;
  }

  function EntriesOf(text: string): seq<Record> {
    Entries(ScanLines(text))
  }

  /** What reading entries into an empty map leaves: the last of a player counts. */
  function Loaded(es: seq<Record>): Records {
    if es == [] then map[]
    else
      var n := |es| - 1;
      Loaded(es[..n])[es[n].xuid := es[n]]
  }

  /** What merging entries into m leaves: the newer join counts, and of equal ones m's. */
  function Merged(m: Records, es: seq<Record>): Records {
    if es == [] then m
    else
      var n := |es| - 1;
      MergeOne(Merged(m, es[..n]), es[n])
  }

  function MergeOne(m: Records, r: Record): Records {
    if r.xuid !in m || r.lastJoin > m[r.xuid].lastJoin then m[r.xuid := r] else m
  }

  /** What Open reads. A missing file reads like an empty one. */
  function Read(text: string): Records {
    Loaded(EntriesOf(text))
  }

  function MergedWith(m: Records, text: string): Records {
    Merged(m, EntriesOf(text))
  }

  predicate Keyed(m: Records) {
    forall x :: x in m ==> m[x].xuid == x
  }

  predicate AllClean(m: Records) {
    forall x :: x in m ==> Clean(m[x])
  }

  function SecondsOf(m: Records): Records {
    map x | x in m :: Seconds(m[x])
  }

  /** Whatever a text holds, the records read from it are ones it can hold. */
  lemma {:induction false} EntriesAreClean(lines: seq<string>)
    requires forall k :: 0 <= k < |lines| ==> Free(lines[k], LF)
    ensures forall i :: 0 <= i < |Entries(lines)| ==> var r := Entries(lines)[i]; Clean(r) && Seconds(r) == r
  {
    if lines != [] {
      var n := |lines| - 1;
      EntriesAreClean(lines[..n]);
      if ParseLine(lines[n]).Some? { ParsedIsClean(lines[n]); }
    }
  }

  lemma {:induction false} LoadedKeepsClean(es: seq<Record>)
    requires forall i :: 0 <= i < |es| ==> Clean(es[i])
    ensures Keyed(Loaded(es)) && AllClean(Loaded(es))
  {
    if es != [] {
      LoadedKeepsClean(es[..|es| - 1]);
    }
  }

  lemma {:induction false} LoadedIsKeyed(es: seq<Record>)
    ensures Keyed(Loaded(es))
  {
    if es != [] {
      LoadedIsKeyed(es[..|es| - 1]);
    }
  }

  lemma {:induction false} MergedStaysKeyed(m: Records, es: seq<Record>)
    requires Keyed(m)
    ensures Keyed(Merged(m, es))
  {
    if es != [] {
      MergedStaysKeyed(m, es[..|es| - 1]);
    }
  }

  /** A player's record is the one of the last entry. */
  lemma {:induction false} LoadedIsLast(es: seq<Record>, x: string) returns (last: nat)
    ensures x in Loaded(es) <==> exists i :: 0 <= i < |es| && es[i].xuid == x
    ensures x in Loaded(es) ==>
      && last < |es| && es[last].xuid == x && Loaded(es)[x] == es[last]
      && forall i :: last < i < |es| ==> es[i].xuid != x
  {
    last := 0;
    if es != [] {
      var n := |es| - 1;
      last := LoadedIsLast(es[..n], x);
      assert forall i :: 0 <= i < n ==> es[..n][i] == es[i];
      if es[n].xuid == x {
        last := n;
      }
    }
  }

  /** The record after a merge is the newest of the one before and the entries, of equally new ones the one before
      or else the first. */
  lemma {:induction false} MergedIsNewest(m: Records, es: seq<Record>, x: string) returns (from: int)
    ensures x in Merged(m, es) <==> x in m || exists i :: 0 <= i < |es| && es[i].xuid == x
    ensures x in Merged(m, es) ==> var r := Merged(m, es)[x];
      && (if 0 <= from < |es| then es[from] == r && r.xuid == x && (x in m ==> m[x].lastJoin < r.lastJoin)
          else x in m && m[x] == r)
      && (forall i :: 0 <= i < |es| && es[i].xuid == x ==>
            if i < from < |es| then es[i].lastJoin < r.lastJoin else es[i].lastJoin <= r.lastJoin)
  {
    from := -1;
    if es != [] {
      var n := |es| - 1;
      from := MergedIsNewest(m, es[..n], x);
      assert forall i :: 0 <= i < n ==> es[..n][i] == es[i];
      var before := Merged(m, es[..n]);
      if from >= n {
        from := -1;
      }
      if es[n].xuid == x && (x !in before || es[n].lastJoin > before[x].lastJoin) {
        from := n;
      }
    }
  }

  lemma LoadedOneMore(es: seq<Record>, r: Record)
    ensures Loaded(es + [r]) == Loaded(es)[r.xuid := r]
  {
    assert (es + [r])[..|es|] == es;
  }

  lemma MergedOneMore(m: Records, es: seq<Record>, r: Record)
    ensures Merged(m, es + [r]) == MergeOne(Merged(m, es), r)
  {
    assert (es + [r])[..|es|] == es;
  }

  lemma NothingLoaded(lines: seq<string>)
    ensures Entries(lines[..0]) == [] && Loaded([]) == map[]
  {}

  lemma BlankLine()
    ensures ParseLine("") == None
  {}

  lemma EntriesOneMore(lines: seq<string>, line: string)
    ensures Entries(lines + [line]) == Entries(lines) + match ParseLine(line) { case None => [] case Some(r) => [r] }
  {
    assert (lines + [line])[..|lines|] == lines;
  }

  // ---------------------------------------------------------------------------------------------
  // Sorting

  /** Go's a < b on strings. */
  predicate Less(a: string, b: string) {
    b != "" && (a == "" || a[0] < b[0] || (a[0] == b[0] && Less(a[1..], b[1..])))
  }

  /** The first difference decides, and a proper prefix is less. */
  lemma {:induction false} LessAt(a: string, b: string) returns (k: nat)
    ensures k <= |a| && k <= |b| && a[..k] == b[..k]
    ensures k == |a| || k == |b| || a[k] != b[k]
    ensures Less(a, b) <==> k < |b| && (k == |a| || a[k] < b[k])
  {
    k := 0;
    if a != "" && b != "" && a[0] == b[0] {
      var j := LessAt(a[1..], b[1..]);
      k := j + 1;
      assert a[..k] == [a[0]] + a[1..][..j] && b[..k] == [b[0]] + b[1..][..j];
    }
  }

  lemma {:induction false} LessTransitive(a: string, b: string, c: string)
    requires Less(a, b) && Less(b, c)
    ensures Less(a, c)
  {
    if a != "" && a[0] == b[0] && b[0] == c[0] { LessTransitive(a[1..], b[1..], c[1..]); }
  }

  lemma {:induction false} LessTotal(a: string, b: string)
    ensures Less(a, b) || a == b || Less(b, a)
    ensures !(Less(a, b) && Less(b, a)) && !Less(a, a)
  {
    if a != "" && b != "" {
      LessTotal(a[1..], b[1..]);
      LessTotal(a[1..], a[1..]);
      assert a == [a[0]] + a[1..] && b == [b[0]] + b[1..];
    } else if a != "" {
      LessTotal(a[1..], a[1..]);
    }
  }

  /** Each record's player ID is not above the next one's. */
  predicate SortedTo(rs: seq<Record>, n: nat) {
    forall i :: 0 < i < n && i < |rs| ==> !Less(rs[i].xuid, rs[i - 1].xuid)
  }

  lemma {:induction false} SortedApart(rs: seq<Record>, i: nat, j: nat)
    requires SortedTo(rs, |rs|) && i < j < |rs|
    ensures !Less(rs[j].xuid, rs[i].xuid)
  {
    if i + 1 < j {
      SortedApart(rs, i, j - 1);
      var a, b, c := rs[i].xuid, rs[j - 1].xuid, rs[j].xuid;
      assert !Less(c, b);
      LessTotal(b, c);
      LessTotal(a, b);
      if Less(c, a) {
        if b != c { LessTransitive(b, c, a); }
      }
    }
  }

  lemma SwapKeepsMultiset(s: seq<Record>, j: nat)
    requires 0 < j < |s|
    ensures multiset(s[j - 1 := s[j]][j := s[j - 1]]) == multiset(s)
  {}

  /** sortRecords. */
  method SortRecords(records: array<Record>)
    modifies records
    ensures SortedTo(records[..], records.Length)
    ensures multiset(records[..]) == multiset(old(records[..]))
  {
    if records.Length == 0 { return; }
    for i := 1 to records.Length
      invariant SortedTo(records[..], i)
      invariant multiset(records[..]) == multiset(old(records[..]))
    {
      Insert(records, i);
    }
  }

  /** All neighbours up to i but the pair below j are in order, and so are the two around it. */
  predicate SortedBut(rs: seq<Record>, i: nat, j: nat) {
    && (forall k :: 0 < k <= i && k < |rs| && k != j ==> !Less(rs[k].xuid, rs[k - 1].xuid))
    && (0 < j < i && j + 1 < |rs| ==> !Less(rs[j + 1].xuid, rs[j - 1].xuid))
  }

  lemma SwapKeepsSortedBut(rs: seq<Record>, i: nat, j: nat)
    requires 0 < j <= i < |rs| && SortedBut(rs, i, j) && Less(rs[j].xuid, rs[j - 1].xuid)
    ensures SortedBut(rs[j - 1 := rs[j]][j := rs[j - 1]], i, j - 1)
  {
    LessTotal(rs[j].xuid, rs[j - 1].xuid);
  }

  /** The inner loop: the record at i moves down to its place among the sorted ones below. */
  method Insert(records: array<Record>, i: nat)
    requires 0 < i < records.Length && SortedTo(records[..], i)
    modifies records
    ensures SortedTo(records[..], i + 1)
    ensures multiset(records[..]) == multiset(old(records[..]))
  {
    var j := i;
    while j > 0 && Less(records[j].xuid, records[j - 1].xuid)
      invariant j <= i
      invariant SortedBut(records[..], i, j)
      invariant multiset(records[..]) == multiset(old(records[..]))
    {
      ghost var before := records[..];
      SwapKeepsSortedBut(before, i, j);
      SwapKeepsMultiset(before, j);
      records[j - 1], records[j] := records[j], records[j - 1];
      assert records[..] == before[j - 1 := before[j]][j := before[j - 1]];
      j := j - 1;
    }
  }

  /** The records of m, each once, by player ID. */
  ghost predicate Listing(m: Records, rs: seq<Record>) {
    && (forall i :: 0 <= i < |rs| ==> rs[i].xuid in m && m[rs[i].xuid] == rs[i])
    && (forall i, j :: 0 <= i < j < |rs| ==> Less(rs[i].xuid, rs[j].xuid))
    && (forall x :: x in m ==> m[x] in rs)
  }

  /** A map has only one listing. */
  lemma {:induction false} ListingIsUnique(m: Records, a: seq<Record>, b: seq<Record>)
    requires Keyed(m) && Listing(m, a) && Listing(m, b)
    ensures a == b
    decreases |a|
  {
    EmptyListing(m, a);
    EmptyListing(m, b);
    if a != [] {
      FirstIsLeast(m, a, b);
      TailIsListing(m, a);
      TailIsListing(m, b);
      ListingIsUnique(m - {a[0].xuid}, a[1..], b[1..]);
      SameFirstSameTail(a, b);
    }
  }

  lemma SameFirstSameTail(a: seq<Record>, b: seq<Record>)
    requires a != [] && b != [] && a[0] == b[0] && a[1..] == b[1..]
    ensures a == b
  {
    assert a == [a[0]] + a[1..] && b == [b[0]] + b[1..];
  }

  lemma EmptyListing(m: Records, rs: seq<Record>)
    requires Listing(m, rs)
    ensures rs == [] <==> m == map[]
  {
    if m != map[] {
      var x :| x in m;
      assert m[x] in rs;
    }
    if rs != [] {
      assert rs[0].xuid in m;
    }
  }

  lemma FirstIsLeast(m: Records, a: seq<Record>, b: seq<Record>)
    requires Listing(m, a) && Listing(m, b) && a != [] && b != []
    ensures a[0] == b[0]
  {
    assert m[a[0].xuid] in b && m[b[0].xuid] in a;
    var j :| 0 <= j < |b| && b[j] == a[0];
    var i :| 0 <= i < |a| && a[i] == b[0];
    LessTotal(a[0].xuid, b[0].xuid);
  }

  lemma TailIsListing(m: Records, rs: seq<Record>)
    requires Keyed(m) && Listing(m, rs) && rs != []
    ensures Keyed(m - {rs[0].xuid}) && Listing(m - {rs[0].xuid}, rs[1..])
  {
    var x := rs[0].xuid;
    LessTotal(x, x);
    forall y | y in m - {x} ensures m[y] in rs[1..] {
      var i :| 0 <= i < |rs| && rs[i] == m[y];
      assert i > 0 && rs[1..][i - 1] == m[y];
    }
  }

  // ---------------------------------------------------------------------------------------------
  // Writing

  function TextOf(rs: seq<Record>, n: nat): string
    requires n <= |rs|
  {
    if n == 0 then "" else TextOf(rs, n - 1) + (LineOf(rs[n - 1]) + [LF])
  }

  ghost predicate IsFileOf(m: Records, text: string) {
    exists rs :: Listing(m, rs) && text == TextOf(rs, |rs|)
  }

  /** Equal records give byte-identical files, whatever order the map was walked in. */
  lemma EqualRecordsEqualFiles(m: Records, a: string, b: string)
    requires Keyed(m) && IsFileOf(m, a) && IsFileOf(m, b)
    ensures a == b
  {
    var ra :| Listing(m, ra) && a == TextOf(ra, |ra|);
    var rb :| Listing(m, rb) && b == TextOf(rb, |rb|);
    ListingIsUnique(m, ra, rb);
  }

  lemma LastKept(a: string, b: string)
    requires b != "" && b[|b| - 1] != CR
    ensures DropCR(a + b) == a + b
  {}

  lemma LineIsClean(r: Record)
    requires Clean(r)
    ensures Free(LineOf(r), LF) && DropCR(LineOf(r)) == LineOf(r)
  {
    var n := FormatInt(Unix(r.lastJoin));
    FormatIntReadBack(Unix(r.lastJoin));
    PlainIsTrimmed(n);
    hide Free, FormatInt, DropCR, IsPlain, Trimmed;
    CommaIsFree();
    FreeConcat(r.xuid, ",", LF);
    FreeConcat(r.xuid + ",", r.name, LF);
    FreeConcat(r.xuid + "," + r.name, ",", LF);
    FreeConcat(r.xuid + "," + r.name + ",", n, LF);
    LastKept(r.xuid + "," + r.name + ",", n);
  }

  lemma CommaIsFree()
    ensures Free(",", LF)
  {}

  lemma OneMoreEntry(text: string, r: Record)
    requires (text == "" || Terminated(text)) && Clean(r)
    ensures var more := text + (LineOf(r) + [LF]);
      Terminated(more) && EntriesOf(more) == EntriesOf(text) + [Seconds(r)]
  {
    hide ParseLine, LineOf, Clean;
    LineIsClean(r);
    ScanOneMore(text, LineOf(r));
    EntriesOneMore(ScanLines(text), LineOf(r));
    CleanLineReadsBack(r);
  }

  /** The file has a line for each record and no other. */
  lemma {:induction false} LinesWritten(rs: seq<Record>, n: nat)
    requires n <= |rs| && forall i :: 0 <= i < |rs| ==> Clean(rs[i])
    ensures var text := TextOf(rs, n);
      (text == "" || Terminated(text)) && AreLinesOf(ScanLines(text), rs, n)
  {
    if n == 0 {
      assert ScanLines("") == [];
    } else {
      hide ScanLines, LineOf, Clean, Terminated, DropCR, AreLinesOf;
      LinesWritten(rs, n - 1);
      LineIsClean(rs[n - 1]);
      ScanOneMore(TextOf(rs, n - 1), LineOf(rs[n - 1]));
      EndedLine(TextOf(rs, n - 1), LineOf(rs[n - 1]));
      OneMoreLine(ScanLines(TextOf(rs, n - 1)), rs, n);
    }
  }

  predicate AreLinesOf(ls: seq<string>, rs: seq<Record>, n: nat) {
    n <= |rs| && |ls| == n && forall i :: 0 <= i < n ==> ls[i] == LineOf(rs[i])
  }

  lemma OneMoreLine(ls: seq<string>, rs: seq<Record>, n: nat)
    requires 0 < n <= |rs| && AreLinesOf(ls, rs, n - 1)
    ensures AreLinesOf(ls + [LineOf(rs[n - 1])], rs, n)
  {
    hide LineOf;
  }

  lemma EndedLine(text: string, line: string)
    ensures Terminated(text + (line + [LF]))
  {}

  /** A written file reads as what was written, in whole seconds. */
  lemma {:induction false} EntriesWritten(rs: seq<Record>, n: nat)
    requires n <= |rs| && forall i :: 0 <= i < |rs| ==> Clean(rs[i])
    ensures var text := TextOf(rs, n);
      (text == "" || Terminated(text)) && EntriesOf(text) == SecondsUpTo(rs, n)
  {
    if n == 0 {
      assert EntriesOf("") == [];
    } else {
      hide EntriesOf, LineOf, Clean, Terminated;
      EntriesWritten(rs, n - 1);
      OneMoreEntry(TextOf(rs, n - 1), rs[n - 1]);
    }
  }

  function SecondsUpTo(rs: seq<Record>, n: nat): (es: seq<Record>)
    requires n <= |rs|
    ensures |es| == n && forall i :: 0 <= i < n ==> es[i] == Seconds(rs[i])
  {
    if n == 0 then [] else SecondsUpTo(rs, n - 1) + [Seconds(rs[n - 1])]
  }

  lemma {:induction false} LoadedWritten(m: Records, rs: seq<Record>, n: nat)
    requires n <= |rs| && Listing(m, rs)
    ensures var k := Loaded(SecondsUpTo(rs, n));
      && (forall i :: 0 <= i < n ==> rs[i].xuid in k)
      && (forall x :: x in k ==> x in m && k[x] == Seconds(m[x]))
  {
    if n > 0 {
      LoadedWritten(m, rs, n - 1);
      assert SecondsUpTo(rs, n)[..n - 1] == SecondsUpTo(rs, n - 1);
    }
  }

  lemma AllLoadedWritten(m: Records, rs: seq<Record>)
    requires Keyed(m) && Listing(m, rs)
    ensures Loaded(SecondsUpTo(rs, |rs|)) == SecondsOf(m)
  {
    var k := Loaded(SecondsUpTo(rs, |rs|));
    LoadedWritten(m, rs, |rs|);
    IsSecondsOf(m, rs, k);
  }

  lemma IsSecondsOf(m: Records, rs: seq<Record>, k: Records)
    requires Keyed(m) && Listing(m, rs) && forall i :: 0 <= i < |rs| ==> rs[i].xuid in k
    requires forall x :: x in k ==> x in m && k[x] == Seconds(m[x])
    ensures k == SecondsOf(m)
  {
    forall x | x in m ensures x in k {
      Listed(m, rs, x);
    }
  }

  lemma Listed(m: Records, rs: seq<Record>, x: string)
    requires Keyed(m) && Listing(m, rs) && x in m
    ensures exists i :: 0 <= i < |rs| && rs[i].xuid == x
  {
    assert m[x] in rs;
  }

  /** Writing records and reading them back gives the same records, in whole seconds, exactly when
      every player ID is non-empty, trimmed and free of commas and line feeds, and every name is free
      of commas and line feeds. */
  lemma ReadBack(m: Records, text: string)
    requires Keyed(m) && IsFileOf(m, text)
    ensures Read(text) == SecondsOf(m) <==> AllClean(m)
  {
    if AllClean(m) {
      CleanReadsBack(m, text);
    }
    var lines := ScanLines(text);
    EntriesAreClean(lines);
    LoadedKeepsClean(Entries(lines));
    if Read(text) == SecondsOf(m) {
      forall x | x in m ensures Clean(m[x]) {
        assert Read(text)[x] == Seconds(m[x]);
      }
    }
  }

  lemma CleanReadsBack(m: Records, text: string)
    requires Keyed(m) && IsFileOf(m, text) && AllClean(m)
    ensures Read(text) == SecondsOf(m)
  {
    var rs :| Listing(m, rs) && text == TextOf(rs, |rs|);
    EntriesWritten(rs, |rs|);
    AllLoadedWritten(m, rs);
  }

  // ---------------------------------------------------------------------------------------------
  // One process's store

  /** The file several stores share. A missing file has the empty text. */
  class ActivityFile {
    var text: string

    constructor ()
      ensures text == ""
    {
      text := "";
    }
  }

  /** What RecordJoin puts into the records. */
  function Join(xuid: string, displayName: string, now: int): Record {
    Record(xuid, Sanitized(displayName), now)
  }

  function OlderThan(m: Records, cutoff: int): Records {
    map x | x in m && m[x].lastJoin < cutoff :: m[x]
  }

  class Store {
    const file: ActivityFile
    var records: Records

    constructor Open(file: ActivityFile)
      ensures this.file == file && records == Read(file.text) && Keyed(records)
    {
      this.file, records := file, map[];
      new;
      Load();
    }

    /** The loop of the above. */
    method Load()
      requires records == map[]
      modifies this`records
      ensures records == Read(file.text) && Keyed(records)
    {
      hide ParseLine, Entries, Loaded, ScanLines, Keyed;
      var lines := ScanLines(file.text);
      ghost var es: seq<Record> := [];
      NothingLoaded(lines);
      for n := 0 to |lines|
        invariant es == Entries(lines[..n]) && records == Loaded(es)
      {
        var line := lines[n];
        assert lines[..n + 1] == lines[..n] + [line];
        EntriesOneMore(lines[..n], line);
        if line == "" {
          BlankLine();
          continue;
        }
        var rec := ParseLine(line);
        if rec.None? {
          continue;
        }
        records := records[rec.value.xuid := rec.value];
        LoadedOneMore(es, rec.value);
        es := es + [rec.value];
      }
      assert lines[..|lines|] == lines;
      LoadedIsKeyed(es);
    }

    method MergeFromFile()
      requires Keyed(records)
      modifies this
      ensures Keyed(records) && records == MergedWith(old(records), file.text)
    {
      hide ParseLine;
      var lines := ScanLines(file.text);
      ghost var es: seq<Record> := [];
      for n := 0 to |lines|
        invariant es == Entries(lines[..n]) && records == Merged(old(records), es)
      {
        assert lines[..n + 1] == lines[..n] + [lines[n]];
        EntriesOneMore(lines[..n], lines[n]);
        var rec := ParseLine(lines[n]);
        if rec.None? {
          continue;
        }
        MergedOneMore(old(records), es, rec.value);
        es := es + [rec.value];
        Fold(rec.value);
      }
      assert lines[..|lines|] == lines;
      MergedStaysKeyed(old(records), es);
    }

    method Fold(rec: Record)
      modifies this
      ensures records == MergeOne(old(records), rec)
    {
      if rec.xuid !in records || rec.lastJoin > records[rec.xuid].lastJoin {
        records := records[rec.xuid := rec];
      }
    }

    method RecordJoin(xuid: string, displayName: string, now: int)
      requires Keyed(records)
      modifies this, file
      ensures Keyed(records)
      ensures records == MergedWith(old(records), old(file.text))[xuid := Join(xuid, displayName, now)]
      ensures xuid in records && records[xuid] == Record(xuid, Sanitized(displayName), now)
      ensures Free(records[xuid].name, ',') && (Free(displayName, ',') ==> records[xuid].name == displayName)
      ensures IsFileOf(records, file.text)
    {
      SanitizedFacts(displayName);
      MergeFromFile();
      records := records[xuid := Record(xuid, Sanitized(displayName), now)];
      Write();
    }

    method Forget(xuid: string)
      requires Keyed(records)
      modifies this, file
      ensures var m := MergedWith(old(records), old(file.text));
        && Keyed(records) && records == m - {xuid}
        && (if xuid in m then IsFileOf(records, file.text) else file.text == old(file.text))
    {
      MergeFromFile();
      if xuid !in records {
        assert records - {xuid} == records;
        return;
      }
      records := records - {xuid};
      Write();
    }

    /** Stale: those who last joined before the window that ends now, each once and by player ID. */
    method Stale(now: int, window: int) returns (stale: seq<Record>)
      requires Keyed(records)
      ensures forall i :: 0 <= i < |stale| ==>
        stale[i].xuid in records && records[stale[i].xuid] == stale[i] && stale[i].lastJoin < now - window
      ensures forall x :: x in records && records[x].lastJoin < now - window ==> records[x] in stale
      ensures forall i, j :: 0 <= i < j < |stale| ==> Less(stale[i].xuid, stale[j].xuid)
    {
      var cutoff := now - window;
      var older := OlderThan(records, cutoff);
      stale := SortedRecords(older);
      assert forall x :: x in records && records[x].lastJoin < cutoff ==> older[x] in stale;
    }

    method Write()
      requires Keyed(records)
      modifies file
      ensures IsFileOf(records, file.text)
    {
      var rs := SortedRecords(records);
      file.text := FileText(rs);
    }
  }

  method FileText(rs: seq<Record>) returns (text: string)
    ensures text == TextOf(rs, |rs|)
  {
    text := "";
    for n := 0 to |rs|
      invariant text == TextOf(rs, n)
    {
      text := text + (LineOf(rs[n]) + [LF]);
    }
  }

  /** Each record of m once, in some order. */
  ghost predicate Collected(m: Records, rs: seq<Record>) {
    && (forall i :: 0 <= i < |rs| ==> rs[i].xuid in m && m[rs[i].xuid] == rs[i])
    && (forall i, j :: 0 <= i < j < |rs| ==> rs[i].xuid != rs[j].xuid)
    && (forall x :: x in m ==> m[x] in rs)
  }

  lemma {:induction false} AtMostOnce(rs: seq<Record>, r: Record)
    requires forall i, j :: 0 <= i < j < |rs| ==> rs[i].xuid != rs[j].xuid
    ensures multiset(rs)[r] <= 1
  {
    if rs != [] {
      var n := |rs| - 1;
      AtMostOnce(rs[..n], r);
      assert rs == rs[..n] + [rs[n]];
      if rs[n] == r {
        assert r !in rs[..n];
      }
    }
  }

  lemma AtLeastTwice(rs: seq<Record>, i: nat, j: nat)
    requires i < j < |rs| && rs[i] == rs[j]
    ensures multiset(rs)[rs[i]] >= 2
  {
    assert rs == rs[..j] + rs[j..];
    assert rs[..j][i] == rs[i] && rs[j..][0] == rs[j];
    assert rs[i] in rs[..j] && rs[i] in rs[j..];
  }

  /** Sorting a collection gives the listing. */
  lemma SortedIsListing(m: Records, collected: seq<Record>, rs: seq<Record>)
    requires Collected(m, collected) && SortedTo(rs, |rs|) && multiset(rs) == multiset(collected)
    ensures Listing(m, rs)
  {
    forall i | 0 <= i < |rs| ensures rs[i].xuid in m && m[rs[i].xuid] == rs[i] {
      assert rs[i] in multiset(rs);
      assert rs[i] in collected;
    }
    forall x | x in m ensures m[x] in rs {
      assert m[x] in multiset(collected);
    }
    forall i, j | 0 <= i < j < |rs| ensures Less(rs[i].xuid, rs[j].xuid) {
      SortedApart(rs, i, j);
      LessTotal(rs[i].xuid, rs[j].xuid);
      if rs[i].xuid == rs[j].xuid {
        AtLeastTwice(rs, i, j);
        AtMostOnce(collected, rs[i]);
      }
    }
  }

  /** The records of a map, walked in whatever order, then sorted. */
  method SortedRecords(m: Records) returns (rs: seq<Record>)
    requires Keyed(m)
    ensures Listing(m, rs)
  {
    var collected: seq<Record> := [];
    var rest := m.Keys;
    while rest != {}
      invariant rest <= m.Keys
      invariant forall i :: 0 <= i < |collected| ==> collected[i].xuid in m.Keys - rest
      invariant forall i :: 0 <= i < |collected| ==> m[collected[i].xuid] == collected[i]
      invariant forall i, j :: 0 <= i < j < |collected| ==> collected[i].xuid != collected[j].xuid
      invariant forall x :: x in m.Keys - rest ==> m[x] in collected
      decreases |rest|
    {
      var x :| x in rest;
      rest := rest - {x};
      collected := collected + [m[x]];
    }
    var records := new Record[|collected|](i requires 0 <= i < |collected| => collected[i]);
    assert records[..] == collected;
    SortRecords(records);
    rs := records[..];
    SortedIsListing(m, collected, rs);
  }
}
