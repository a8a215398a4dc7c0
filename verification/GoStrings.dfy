/** The parts of Go's strings package the program leans on. A string is the sequence of its
    Unicode scalar values; ByteLength is what Go's len reports for it. */
module GoStrings {

  datatype Option<+T> = None | Some(value: T)

  const LF: char := '\n'
  const CR: char := '\r'

  /** unicode.IsSpace. */
  predicate IsSpace(c: char) {
    var n := c as int;
    || 0x09 <= n <= 0x0D || n == 0x20 || n == 0x85 || n == 0xA0 || n == 0x1680
    || 0x2000 <= n <= 0x200A || n == 0x2028 || n == 0x2029 || n == 0x202F || n == 0x205F || n == 0x3000
  }

  function CharBytes(c: char): nat {
    var n := c as int;
    if n < 0x80 then 1 else if n < 0x800 then 2 else if n < 0x1_0000 then 3 else 4
  }

  /** len(s): the length of the UTF-8 encoding. */
  function ByteLength(s: string): nat {
    if s == "" then 0 else CharBytes(s[0]) + ByteLength(s[1..])
  }

  /** Lengths add up, and a character has one to four bytes by its place in Unicode. */
  lemma {:induction false} ByteLengthOf(a: string, b: string)
    ensures ByteLength(a + b) == ByteLength(a) + ByteLength(b)
    ensures |a| <= ByteLength(a) <= 4 * |a|
    ensures (forall i :: 0 <= i < |a| ==> a[i] < '\U{80}') ==> ByteLength(a) == |a|
    ensures ByteLength("\U{7F}") == 1 && ByteLength("\U{80}") == ByteLength("\U{7FF}") == 2
    ensures ByteLength("\U{800}") == ByteLength("\U{FFFF}") == 3 && ByteLength("\U{10000}") == 4
  {
    if a == "" {
      assert a + b == b;
    } else {
      ByteLengthOf(a[1..], b);
      assert (a + b)[1..] == a[1..] + b;
    }
  }

  /** strings.Contains. */
  predicate Contains(s: string, sub: string) {
    exists i :: 0 <= i <= |s| && sub <= s[i..]
  }

  /** strings.CutPrefix, with None for "no such prefix". */
  function CutPrefix(s: string, prefix: string): Option<string> {
    if prefix <= s then Some(s[|prefix|..]) else None
  }

  predicate Free(s: string, c: char) {
    forall i :: 0 <= i < |s| ==> s[i] != c
  }

  lemma FreeConcat(a: string, b: string, c: char)
    ensures Free(a + b, c) <==> Free(a, c) && Free(b, c)
  {
    assert forall i :: 0 <= i < |a| ==> (a + b)[i] == a[i];
    assert forall i :: 0 <= i < |b| ==> (a + b)[|a| + i] == b[i];
  }

  /** strings.IndexByte. */
  function IndexOf(s: string, c: char): (i: int)
    ensures -1 <= i < |s|
    ensures i >= 0 ==> s[i] == c
    ensures forall j :: 0 <= j < (if i < 0 then |s| else i) ==> s[j] != c
  {
    IndexFrom(s, c, 0)
  }

  function IndexFrom(s: string, c: char, from: nat): (i: int)
    requires from <= |s|
    ensures i == -1 || from <= i < |s|
    ensures i >= 0 ==> s[i] == c
    ensures forall j :: from <= j < (if i < 0 then |s| else i) ==> s[j] != c
    decreases |s| - from
  {
    if from == |s| then -1 else if s[from] == c then from else IndexFrom(s, c, from + 1)
  }

  /** strings.TrimRight with a cut set. */
  function TrimRight(s: string, cut: set<char>): string {
    if s != "" && s[|s| - 1] in cut then TrimRight(s[..|s| - 1], cut) else s
  }

  /** TrimRight leaves the longest prefix that does not end in the cut set. */
  lemma {:induction false} TrimRightFacts(s: string, cut: set<char>)
    ensures var t := TrimRight(s, cut);
      && t <= s && (t != "" ==> t[|t| - 1] !in cut)
      && forall i :: |t| <= i < |s| ==> s[i] in cut
  {
    if s != "" && s[|s| - 1] in cut {
      TrimRightFacts(s[..|s| - 1], cut);
    }
  }

  function TrimLeftSpace(s: string): (t: string)
    ensures t != "" ==> !IsSpace(t[0])
  {
    if s != "" && IsSpace(s[0]) then TrimLeftSpace(s[1..]) else s
  }

  function TrimRightSpace(s: string): (t: string)
    ensures t <= s
    ensures t != "" ==> !IsSpace(t[|t| - 1])
  {
    if s != "" && IsSpace(s[|s| - 1]) then TrimRightSpace(s[..|s| - 1]) else s
  }

  /** strings.TrimSpace. */
  function TrimSpace(s: string): (t: string)
    ensures Trimmed(t)
  {
    TrimRightSpace(TrimLeftSpace(s))
  }

  predicate Trimmed(s: string) {
    s != "" ==> !IsSpace(s[0]) && !IsSpace(s[|s| - 1])
  }

  lemma TrimmedIsFixed(s: string)
    requires Trimmed(s)
    ensures TrimSpace(s) == s
  {}

  predicate AllSpace(s: string) {
    forall i :: 0 <= i < |s| ==> IsSpace(s[i])
  }

  /** TrimSpace takes off all the space around and nothing else. */
  lemma TrimSpaceFacts(s: string) returns (left: string, right: string)
    ensures s == left + TrimSpace(s) + right && AllSpace(left) && AllSpace(right) && Trimmed(TrimSpace(s))
  {
    left := TrimLeftFacts(s);
    right := TrimRightSpaceFacts(TrimLeftSpace(s));
    assert left + (TrimSpace(s) + right) == (left + TrimSpace(s)) + right;
  }

  lemma {:induction false} TrimLeftFacts(s: string) returns (left: string)
    ensures s == left + TrimLeftSpace(s) && AllSpace(left)
  {
    left := "";
    if s != "" && IsSpace(s[0]) {
      left := TrimLeftFacts(s[1..]);
      left := [s[0]] + left;
    }
  }

  lemma {:induction false} TrimRightSpaceFacts(s: string) returns (right: string)
    ensures s == TrimRightSpace(s) + right && AllSpace(right)
  {
    right := "";
    if s != "" && IsSpace(s[|s| - 1]) {
      right := TrimRightSpaceFacts(s[..|s| - 1]);
      right := right + [s[|s| - 1]];
    }
  }

  lemma {:induction false} TrimLeftIgnores(left: string, s: string)
    requires AllSpace(left)
    ensures TrimLeftSpace(left + s) == TrimLeftSpace(s)
  {
    hide IsSpace;
    if left == "" {
      assert left + s == s;
    } else {
      TrimLeftIgnores(left[1..], s);
      assert (left + s)[0] == left[0] && (left + s)[1..] == left[1..] + s;
    }
  }

  lemma {:induction false} TrimRightIgnores(s: string, right: string)
    requires AllSpace(right)
    ensures TrimRightSpace(s + right) == TrimRightSpace(s)
  {
    hide IsSpace;
    var n := |s + right|;
    if right == "" {
      assert s + right == s;
    } else {
      TrimRightIgnores(s, right[..|right| - 1]);
      assert (s + right)[n - 1] == right[|right| - 1] && (s + right)[..n - 1] == s + right[..|right| - 1];
    }
  }

  /** So what has no space at either end is what is left of it with space around. */
  lemma TrimSpaceOf(left: string, t: string, right: string)
    requires AllSpace(left) && AllSpace(right) && Trimmed(t)
    ensures TrimSpace(left + t + right) == t
  {
    hide IsSpace;
    assert left + t + right == left + (t + right);
    TrimLeftIgnores(left, t + right);
    if t == "" {
      TrimLeftIgnores(right, "");
      assert t + right == right + "";
    } else {
      assert (t + right)[0] == t[0];
      TrimRightIgnores(t, right);
    }
  }

  /** A prefix whose last character survives trimming is a prefix of the trimmed string too. */
  lemma PrefixSurvivesTrimRight(s: string, cut: set<char>, prefix: string)
    requires prefix != "" && prefix[|prefix| - 1] !in cut
    ensures prefix <= s <==> prefix <= TrimRight(s, cut)
  {
    TrimRightFacts(s, cut);
    assert prefix <= s ==> s[..|prefix|] == prefix;
  }

  /** The length of the first space-free run. */
  function FieldLength(s: string): (n: nat)
    ensures n <= |s|
    ensures s != "" && !IsSpace(s[0]) ==> n > 0
  {
    if s == "" || IsSpace(s[0]) then 0 else 1 + FieldLength(s[1..])
  }

  /** strings.Fields. */
  function Fields(s: string): (fs: seq<string>)
    decreases |s|
  {
    if s == "" then []
    else if IsSpace(s[0]) then Fields(s[1..])
    else [s[..FieldLength(s)]] + Fields(s[FieldLength(s)..])
  }

  predicate IsWord(w: string) {
    w != "" && forall i :: 0 <= i < |w| ==> !IsSpace(w[i])
  }

  lemma {:induction false} FieldLengthIs(w: string, rest: string)
    requires (forall i :: 0 <= i < |w| ==> !IsSpace(w[i])) && (rest == "" || IsSpace(rest[0]))
    ensures FieldLength(w + rest) == |w|
  {
    var s := w + rest;
    if w == "" {
      assert s == rest;
    } else {
      assert s[0] == w[0] && s[1..] == w[1..] + rest;
      FieldLengthIs(w[1..], rest);
    }
  }

  lemma FieldsSkipSpace(c: char, s: string)
    requires IsSpace(c)
    ensures Fields([c] + s) == Fields(s)
  {
    assert ([c] + s)[1..] == s;
  }

  /** A run without space that space or the end follows is a field. */
  lemma FieldsOfWord(w: string, rest: string)
    requires IsWord(w) && (rest == "" || IsSpace(rest[0]))
    ensures Fields(w + rest) == [w] + Fields(rest)
  {
    FieldLengthIs(w, rest);
    var s := w + rest;
    assert s[0] == w[0] && s[..|w|] == w && s[|w|..] == rest;
  }

  /** The word s begins with, and what follows it. */
  lemma {:induction false} FirstWord(s: string) returns (w: string, rest: string)
    requires s != "" && !IsSpace(s[0])
    ensures s == w + rest && IsWord(w) && (rest == "" || IsSpace(rest[0])) && Fields(s) == [w] + Fields(rest)
    ensures |rest| < |s|
  {
    w, rest := [s[0]], s[1..];
    if rest != "" && !IsSpace(rest[0]) {
      var later: string;
      var v: string;
      v, later := FirstWord(rest);
      w, rest := [s[0]] + v, later;
      assert s == [s[0]] + (v + later) == w + rest;
    }
    FieldsOfWord(w, rest);
  }

  /** w stands at p in s, with space or an end of s on both sides. */
  predicate RunAt(s: string, w: string, p: nat) {
    && IsWord(w) && p + |w| <= |s| && s[p..p + |w|] == w
    && (p == 0 || IsSpace(s[p - 1]))
    && (p + |w| == |s| || IsSpace(s[p + |w|]))
  }

  predicate Within(fs: seq<string>, at: seq<nat>, i: nat, p: nat)
    requires i < |fs| == |at|
  {
    at[i] <= p < at[i] + |fs[i]|
  }

  predicate Covered(fs: seq<string>, at: seq<nat>, p: nat)
    requires |fs| == |at|
  {
    exists i :: 0 <= i < |fs| && Within(fs, at, i, p)
  }

  /** fs are runs of s without space, as long as they can be and in order, and at says where each begins:
      outside them there is only space. */
  ghost predicate RunsOf(s: string, fs: seq<string>, at: seq<nat>) {
    && |at| == |fs|
    && (forall i :: 0 <= i < |fs| ==> RunAt(s, fs[i], at[i]))
    && InOrder(fs, at) && CoversAll(s, fs, at)
  }

  ghost predicate InOrder(fs: seq<string>, at: seq<nat>) {
    |fs| == |at| && forall i, j :: 0 <= i < j < |fs| ==> at[i] + |fs[i]| < at[j]
  }

  ghost predicate CoversAll(s: string, fs: seq<string>, at: seq<nat>) {
    |fs| == |at| && forall p :: 0 <= p < |s| && !IsSpace(s[p]) ==> Covered(fs, at, p)
  }

  function Shifted(at: seq<nat>, n: nat): (r: seq<nat>)
    ensures |r| == |at| && forall i :: 0 <= i < |at| ==> r[i] == at[i] + n
  {
    if at == [] then [] else [at[0] + n] + Shifted(at[1..], n)
  }

  /** The fields of a string are its longest runs without space, all of them and in order. */
  lemma {:induction false} FieldsAreRuns(s: string) returns (at: seq<nat>)
    ensures RunsOf(s, Fields(s), at)
    decreases |s|
  {
    if s == "" {
      at := [];
    } else if IsSpace(s[0]) {
      at := FieldsAreRuns(s[1..]);
      RunsAfter(s[..1], s[1..], Fields(s[1..]), at);
      assert s == s[..1] + s[1..];
      at := Shifted(at, 1);
    } else {
      var w, rest := FirstWord(s);
      at := FieldsAreRuns(rest);
      RunsAfterWord(w, rest, Fields(rest), at);
      at := [0] + Shifted(at, |w|);
    }
  }

  lemma RunShifts(c: string, s: string, w: string, p: nat)
    requires RunAt(s, w, p) && c != "" && (p > 0 || IsSpace(c[|c| - 1]))
    ensures RunAt(c + s, w, p + |c|)
  {
    var t, q := c + s, p + |c|;
    assert t[q..q + |w|] == s[p..p + |w|];
    assert t[q - 1] == if p > 0 then s[p - 1] else c[|c| - 1];
    assert q + |w| < |t| ==> t[q + |w|] == s[p + |w|];
  }

  lemma RunsAfter(c: string, s: string, fs: seq<string>, at: seq<nat>)
    requires |c| == 1 && IsSpace(c[0]) && RunsOf(s, fs, at)
    ensures RunsOf(c + s, fs, Shifted(at, 1))
  {
    RunsShift(c, s, fs, at);
    CoversShift(c, s, fs, at);
    InOrderShifts(fs, at, 1);
    hide IsWord, RunAt, InOrder, CoversAll, IsSpace, Shifted;
  }

  lemma InOrderShifts(fs: seq<string>, at: seq<nat>, n: nat)
    requires InOrder(fs, at)
    ensures InOrder(fs, Shifted(at, n))
  {
    hide Shifted;
  }

  lemma CoversShift(c: string, s: string, fs: seq<string>, at: seq<nat>)
    requires |c| == 1 && IsSpace(c[0]) && CoversAll(s, fs, at)
    ensures CoversAll(c + s, fs, Shifted(at, 1))
  {
    hide Covered, IsSpace, Shifted;
    forall p | 0 <= p < |c + s| && !IsSpace((c + s)[p]) ensures Covered(fs, Shifted(at, 1), p) {
      assert p > 0 && (c + s)[p] == s[p - 1];
      CoverShifts(fs, at, p - 1);
    }
  }

  lemma CoverShifts(fs: seq<string>, at: seq<nat>, p: nat)
    requires |fs| == |at| && Covered(fs, at, p)
    ensures Covered(fs, Shifted(at, 1), p + 1)
  {
    var i :| 0 <= i < |fs| && Within(fs, at, i, p);
    assert Within(fs, Shifted(at, 1), i, p + 1);
  }

  lemma RunNotFirst(s: string, w: string, p: nat)
    requires RunAt(s, w, p) && (s == "" || IsSpace(s[0]))
    ensures p > 0
  {
    assert s[p..p + |w|][0] == s[p];
  }

  lemma RunFirst(w: string, rest: string)
    requires IsWord(w) && (rest == "" || IsSpace(rest[0]))
    ensures RunAt(w + rest, w, 0)
  {}

  lemma RunsShift(c: string, s: string, fs: seq<string>, at: seq<nat>)
    requires RunsOf(s, fs, at) && c != "" && (IsSpace(c[|c| - 1]) || s == "" || IsSpace(s[0]))
    ensures forall i :: 0 <= i < |fs| ==> RunAt(c + s, fs[i], Shifted(at, |c|)[i])
    ensures IsSpace(c[|c| - 1]) || forall i :: 0 <= i < |fs| ==> at[i] > 0
  {
    hide RunAt, IsSpace, InOrder, CoversAll, Shifted;
    var t, to := c + s, Shifted(at, |c|);
    forall i | 0 <= i < |fs| ensures RunAt(t, fs[i], to[i]) && (IsSpace(c[|c| - 1]) || at[i] > 0) {
      RunShiftsOn(c, s, fs[i], at[i]);
    }
  }

  lemma RunShiftsOn(c: string, s: string, w: string, p: nat)
    requires RunAt(s, w, p) && c != "" && (IsSpace(c[|c| - 1]) || s == "" || IsSpace(s[0]))
    ensures RunAt(c + s, w, p + |c|) && (IsSpace(c[|c| - 1]) || p > 0)
  {
    if !IsSpace(c[|c| - 1]) { RunNotFirst(s, w, p); }
    RunShifts(c, s, w, p);
  }

  lemma RunsCons(t: string, w: string, fs: seq<string>, at: seq<nat>)
    requires InOrder(fs, at) && CoversAll(t, [w] + fs, [0] + at)
    requires RunAt(t, w, 0) && forall i :: 0 <= i < |fs| ==> RunAt(t, fs[i], at[i]) && |w| < at[i]
    ensures RunsOf(t, [w] + fs, [0] + at)
  {
    hide RunAt, Covered, IsSpace;
    var ws, to := [w] + fs, [0] + at;
    forall i | 0 <= i < |ws| ensures RunAt(t, ws[i], to[i]) {
      if i > 0 { assert ws[i] == fs[i - 1] && to[i] == at[i - 1]; }
    }
    forall i, j | 0 <= i < j < |ws| ensures to[i] + |ws[i]| < to[j] {
      if i > 0 { assert at[i - 1] + |fs[i - 1]| < at[j - 1]; }
    }
  }

  lemma RunsAfterWord(w: string, rest: string, fs: seq<string>, at: seq<nat>)
    requires IsWord(w) && (rest == "" || IsSpace(rest[0])) && RunsOf(rest, fs, at)
    ensures RunsOf(w + rest, [w] + fs, [0] + Shifted(at, |w|))
  {
    assert !IsSpace(w[|w| - 1]);
    RunFirst(w, rest);
    RunsShift(w, rest, fs, at);
    InOrderShifts(fs, at, |w|);
    CoversAfterWord(w, rest, fs, at);
    hide RunAt, CoversAll, InOrder, IsSpace, IsWord, Shifted;
    RunsCons(w + rest, w, fs, Shifted(at, |w|));
  }

  lemma CoversAfterWord(w: string, rest: string, fs: seq<string>, at: seq<nat>)
    requires CoversAll(rest, fs, at)
    ensures CoversAll(w + rest, [w] + fs, [0] + Shifted(at, |w|))
  {
    hide IsSpace, Shifted, Covered;
    var t := w + rest;
    forall p | 0 <= p < |t| && !IsSpace(t[p]) ensures Covered([w] + fs, [0] + Shifted(at, |w|), p) {
      RunsCover(w, rest, fs, at, p);
    }
  }

  lemma RunsCover(w: string, rest: string, fs: seq<string>, at: seq<nat>, p: nat)
    requires p < |w + rest| && !IsSpace((w + rest)[p]) && CoversAll(rest, fs, at)
    ensures Covered([w] + fs, [0] + Shifted(at, |w|), p)
  {
    hide IsSpace;
    var ws, to := [w] + fs, [0] + Shifted(at, |w|);
    if p < |w| {
      assert Within(ws, to, 0, p);
    } else {
      assert (w + rest)[p] == rest[p - |w|];
      assert Covered(fs, at, p - |w|);
      var i :| 0 <= i < |fs| && Within(fs, at, i, p - |w|);
      assert Within(ws, to, i + 1, p);
    }
  }

  /** Words with one space between them. */
  function Spaced(ws: seq<string>): string {
    if ws == [] then "" else if |ws| == 1 then ws[0] else ws[0] + (" " + Spaced(ws[1..]))
  }

  lemma {:induction false} FieldsOfSpaced(ws: seq<string>)
    requires All(ws, IsWord)
    ensures Fields(Spaced(ws)) == ws
  {
    if |ws| == 1 {
      FieldsOfWord(ws[0], "");
      assert ws[0] + "" == ws[0];
    } else if ws != [] {
      FieldsOfSpaced(ws[1..]);
      FieldsOfWord(ws[0], " " + Spaced(ws[1..]));
      FieldsSkipSpace(' ', Spaced(ws[1..]));
      assert [' '] + Spaced(ws[1..]) == " " + Spaced(ws[1..]);
      assert ws == [ws[0]] + ws[1..];
    }
  }

  /** Space around a string makes no difference to its fields. */
  lemma {:induction false} FieldsIgnoreLeft(left: string, s: string)
    requires AllSpace(left)
    ensures Fields(left + s) == Fields(s)
  {
    hide Fields, IsSpace;
    if left == "" {
      assert left + s == s;
    } else {
      FieldsIgnoreLeft(left[1..], s);
      FieldsSkipSpace(left[0], left[1..] + s);
      assert left + s == [left[0]] + (left[1..] + s);
    }
  }

  lemma {:induction false} FieldsIgnoreRight(s: string, right: string)
    requires AllSpace(right)
    ensures Fields(s + right) == Fields(s)
    decreases |s|
  {
    hide Fields, IsSpace;
    if s == "" {
      assert s + right == right + "" && s == "";
      FieldsIgnoreLeft(right, "");
    } else if IsSpace(s[0]) {
      FieldsIgnoreRight(s[1..], right);
      FieldsSkipSpace(s[0], s[1..] + right);
      FieldsSkipSpace(s[0], s[1..]);
      assert s == [s[0]] + s[1..] && s + right == [s[0]] + (s[1..] + right);
    } else {
      var w, rest := FirstWord(s);
      FieldsIgnoreRight(rest, right);
      assert s + right == w + (rest + right);
      SpaceFirst(rest, right);
      FieldsOfWord(w, rest + right);
    }
  }

  lemma SpaceFirst(rest: string, right: string)
    requires (rest == "" || IsSpace(rest[0])) && AllSpace(right)
    ensures rest + right == "" || IsSpace((rest + right)[0])
  {}

  lemma FieldsOfTrimmed(s: string)
    ensures Fields(TrimSpace(s)) == Fields(s)
  {
    var left, right := TrimSpaceFacts(s);
    FieldsIgnoreRight(left + TrimSpace(s), right);
    FieldsIgnoreLeft(left, TrimSpace(s));
  }

  lemma {:induction false} FieldIsContained(s: string, i: nat)
    requires i < |Fields(s)|
    ensures Contains(s, Fields(s)[i])
    decreases |s|
  {
    if s == "" {
    } else if IsSpace(s[0]) {
      FieldIsContained(s[1..], i);
      ContainsInSuffix(s, 1, Fields(s)[i]);
    } else if i == 0 {
      assert s[..FieldLength(s)] <= s[0..];
    } else {
      var n := FieldLength(s);
      FieldIsContained(s[n..], i - 1);
      ContainsInSuffix(s, n, Fields(s)[i]);
    }
  }

  lemma ContainsInSuffix(s: string, n: nat, sub: string)
    requires n <= |s| && Contains(s[n..], sub)
    ensures Contains(s, sub)
  {
    var i :| 0 <= i <= |s[n..]| && sub <= s[n..][i..];
    assert s[n..][i..] == s[n + i..];
  }

  lemma ContainsInPrefix(s: string, n: nat, sub: string)
    requires n <= |s| && Contains(s[..n], sub)
    ensures Contains(s, sub)
  {
    var i :| 0 <= i <= |s[..n]| && sub <= s[..n][i..];
    assert s[..n][i..] == s[i..n];
    assert s[i..n] <= s[i..];
  }

  // ---------------------------------------------------------------------------------------------
  // Sequences of strings

  /** The elements for which keep holds, in order. */
  function Filter<T>(ss: seq<T>, keep: T -> bool): seq<T> {
    if ss == [] then []
    else if keep(ss[0]) then [ss[0]] + Filter(ss[1..], keep)
    else Filter(ss[1..], keep)
  }

  lemma {:induction false} FilterAppend<T>(a: seq<T>, b: seq<T>, keep: T -> bool)
    ensures Filter(a + b, keep) == Filter(a, keep) + Filter(b, keep)
  {
    if a == [] {
      assert a + b == b;
    } else {
      FilterAppend(a[1..], b, keep);
      assert (a + b)[1..] == a[1..] + b;
    }
  }

  lemma FilterOne<T>(x: T, keep: T -> bool)
    ensures Filter([x], keep) == if keep(x) then [x] else []
  {
    assert [x][1..] == [];
  }

  function Map<T, U>(ss: seq<T>, f: T -> U): (us: seq<U>)
    ensures |us| == |ss|
  {
    if ss == [] then [] else [f(ss[0])] + Map(ss[1..], f)
  }

  lemma MapCons<T, U>(x: T, ss: seq<T>, f: T -> U)
    ensures Map([x] + ss, f) == [f(x)] + Map(ss, f)
  {
    assert ([x] + ss)[1..] == ss;
  }

  lemma {:induction false} MapAppend<T, U>(a: seq<T>, b: seq<T>, f: T -> U)
    ensures Map(a + b, f) == Map(a, f) + Map(b, f)
  {
    if a == [] {
      assert a + b == b;
    } else {
      MapAppend(a[1..], b, f);
      MapCons(a[0], a[1..] + b, f);
      assert a + b == [a[0]] + (a[1..] + b);
      ConsAppend(f(a[0]), Map(a[1..], f), Map(b, f));
    }
  }

  lemma {:induction false} MapAt<T, U>(ss: seq<T>, f: T -> U, i: nat)
    requires i < |ss|
    ensures Map(ss, f)[i] == f(ss[i])
  {
    if i > 0 { MapAt(ss[1..], f, i - 1); }
  }

  predicate All<T>(ss: seq<T>, p: T -> bool) {
    forall i :: 0 <= i < |ss| ==> p(ss[i])
  }

  lemma AllAppend<T>(a: seq<T>, b: seq<T>, p: T -> bool)
    requires All(a, p) && All(b, p)
    ensures All(a + b, p)
  {}

  lemma {:induction false} FilterLeavesOnlyKept<T>(ss: seq<T>, keep: T -> bool)
    ensures All(Filter(ss, keep), keep)
  {
    if ss != [] { FilterLeavesOnlyKept(ss[1..], keep); }
  }

  lemma {:induction false} FilterOfKept<T>(ss: seq<T>, keep: T -> bool)
    requires All(ss, keep)
    ensures Filter(ss, keep) == ss
  {
    if ss != [] { FilterOfKept(ss[1..], keep); }
  }

  lemma {:induction false} FilterOfNone<T>(ss: seq<T>, keep: T -> bool)
    requires forall i :: 0 <= i < |ss| ==> !keep(ss[i])
    ensures Filter(ss, keep) == []
  {
    if ss != [] { FilterOfNone(ss[1..], keep); }
  }

  // ---------------------------------------------------------------------------------------------
  // Lines

  function Concat(ss: seq<string>): string {
    if ss == [] then "" else ss[0] + Concat(ss[1..])
  }

  lemma {:induction false} ConcatAppend(a: seq<string>, b: seq<string>)
    ensures Concat(a + b) == Concat(a) + Concat(b)
  {
    if a == [] {
      assert a + b == b;
    } else {
      ConcatAppend(a[1..], b);
      assert a[0] + (Concat(a[1..]) + Concat(b)) == Concat(a) + Concat(b);
      assert (a + b)[1..] == a[1..] + b;
    }
  }

  predicate Terminated(l: string) {
    l != "" && l[|l| - 1] == LF
  }

  /** Non-empty, with no line feed except perhaps as its last character. */
  predicate IsLine(l: string) {
    l != "" && forall i :: 0 <= i < |l| - 1 ==> l[i] != LF
  }

  /** What cutting a text after each line feed leaves: only the last line may be unterminated. */
  predicate WellFormed(ls: seq<string>) {
    && (forall i :: 0 <= i < |ls| ==> IsLine(ls[i]))
    && (forall i :: 0 <= i < |ls| - 1 ==> Terminated(ls[i]))
  }

  function LineLength(s: string): (n: nat)
    requires s != ""
    ensures 0 < n <= |s| && IsLine(s[..n])
    ensures n < |s| ==> Terminated(s[..n])
    ensures !Terminated(s[..n]) ==> n == |s| && Free(s, LF)
  {
    var i := IndexOf(s, LF);
    if i < 0 then |s| else i + 1
  }

  /** The lines of s, each with its line feed. */
  function Lines(s: string): seq<string>
    decreases |s|
  {
    if s == "" then [] else [s[..LineLength(s)]] + Lines(s[LineLength(s)..])
  }

  /** The lines put together are the text, and each ends where the next begins. */
  lemma {:induction false} LinesOfText(s: string)
    ensures WellFormed(Lines(s)) && Concat(Lines(s)) == s
    ensures Lines(s) == [] <==> s == ""
    decreases |s|
  {
    hide WellFormed, IsLine, Terminated;
    if s != "" {
      var n := LineLength(s);
      var l, rest := s[..n], s[n..];
      LinesOfText(rest);
      assert s == l + rest;
      assert n == |s| ==> rest == "";
      WellFormedCons(l, Lines(rest));
      ConcatCons(l, Lines(rest));
    } else {
      NoLines();
    }
  }

  lemma NoLines()
    ensures WellFormed([])
  {}

  lemma WellFormedCons(l: string, ls: seq<string>)
    requires IsLine(l) && (Terminated(l) || ls == []) && WellFormed(ls)
    ensures WellFormed([l] + ls)
  {}

  lemma ConcatCons(l: string, ls: seq<string>)
    ensures Concat([l] + ls) == l + Concat(ls)
  {
    assert ([l] + ls)[1..] == ls;
  }

  lemma {:induction false} FilterStaysWellFormed(ls: seq<string>, keep: string -> bool)
    requires WellFormed(ls)
    ensures WellFormed(Filter(ls, keep))
  {
    if ls != [] {
      FilterStaysWellFormed(ls[1..], keep);
    }
  }

  lemma LineLengthOfFirst(l: string, rest: string)
    requires IsLine(l) && (Terminated(l) || rest == "")
    ensures LineLength(l + rest) == |l|
  {
    var s := l + rest;
    var n := LineLength(s);
    assert n < |s| ==> s[..n][n - 1] == s[n - 1];
    assert Terminated(l) ==> s[|l| - 1] == LF;
  }

  lemma {:induction false} LinesOfConcat(ls: seq<string>)
    requires WellFormed(ls)
    ensures Lines(Concat(ls)) == ls
  {
    if ls != [] {
      var l, later := ls[0], ls[1..];
      var rest := Concat(later);
      assert IsLine(l) && WellFormed(later);
      if |ls| == 1 { assert rest == ""; } else { assert Terminated(l); }
      hide WellFormed, IsLine, Terminated;
      LineLengthOfFirst(l, rest);
      LinesOfConcat(later);
      CutOff(l, rest);
      assert ls == [l] + later && l != "";
    }
  }

  lemma CutOff(l: string, rest: string)
    ensures (l + rest)[..|l|] == l && (l + rest)[|l|..] == rest
  {}

  lemma {:induction false} LastLineTerminated(s: string)
    requires s != ""
    ensures Lines(s) != []
    ensures Terminated(s) <==> Terminated(Lines(s)[|Lines(s)| - 1])
    decreases |s|
  {
    var n := LineLength(s);
    var rest := s[n..];
    if rest == "" {
      assert s[..n] == s && Lines(s) == [s] + Lines("") == [s];
    } else {
      LastLineTerminated(rest);
      assert s[|s| - 1] == rest[|rest| - 1];
    }
  }

  /** Cutting at a line boundary cuts the list of lines. */
  lemma LinesAppend(a: string, b: string)
    requires a == "" || Terminated(a) || b == ""
    ensures Lines(a + b) == Lines(a) + Lines(b)
  {
    LinesOfText(a);
    LinesOfText(b);
    if a != "" { LastLineTerminated(a); }
    WellFormedAppend(Lines(a), Lines(b));
    hide WellFormed, Terminated;
    ConcatAppend(Lines(a), Lines(b));
    LinesOfConcat(Lines(a) + Lines(b));
  }

  lemma WellFormedAppend(a: seq<string>, b: seq<string>)
    requires WellFormed(a) && WellFormed(b) && (a == [] || b == [] || Terminated(a[|a| - 1]))
    ensures WellFormed(a + b)
  {
    hide IsLine, Terminated;
  }

  lemma SingleLine(l: string)
    requires IsLine(l)
    ensures Lines(l) == [l]
  {
    LinesOfConcat([l]);
    assert [l][1..] == [] && Concat([l]) == l;
  }

  lemma FirstLine(s: string)
    requires s != ""
    ensures var n := LineLength(s); IsLine(s[..n]) && Lines(s) == [s[..n]] + Lines(s[n..])
  {}

  lemma ExtendedLine(l: string, eol: string)
    requires Free(l, LF) && IsLine(eol)
    ensures IsLine(l + eol)
  {}

  /** Ending an unterminated text changes its last line only. */
  lemma {:induction false} LinesExtendLast(s: string, eol: string)
    requires s != "" && !Terminated(s) && IsLine(eol)
    ensures Lines(s) != [] && Lines(s + eol) == ExtendLast(Lines(s), eol)
    decreases |s|
  {
    var n := LineLength(s);
    if n == |s| {
      assert s[..n] == s;
      ExtendedLine(s, eol);
      SingleLine(s);
      SingleLine(s + eol);
    } else {
      var first, rest := s[..n], s[n..];
      SingleLine(first);
      assert s + eol == first + (rest + eol);
      LinesAppend(first, rest + eol);
      assert Lines(s) == [first] + Lines(rest);
      LinesExtendLast(rest, eol);
      ExtendLastStep(first, Lines(rest), eol);
    }
  }

  function ExtendLast(ls: seq<string>, eol: string): seq<string>
    requires ls != []
  {
    if |ls| == 1 then [ls[0] + eol] else [ls[0]] + ExtendLast(ls[1..], eol)
  }

  lemma ExtendLastStep(first: string, ls: seq<string>, eol: string)
    requires ls != []
    ensures ExtendLast([first] + ls, eol) == [first] + ExtendLast(ls, eol)
  {
    assert ([first] + ls)[1..] == ls;
  }

  /** A line without its ending. */
  function Content(l: string): string {
    TrimRight(l, {CR, LF})
  }

  function Contents(ls: seq<string>): seq<string> {
    Map(ls, Content)
  }

  lemma ContentIgnoresEnding(l: string, eol: string)
    requires eol == "\n" || eol == "\r\n"
    ensures Content(l + eol) == Content(l)
  {
    var cut := {CR, LF};
    if eol == "\n" {
      assert (l + eol)[..|l + eol| - 1] == l;
    } else {
      assert (l + eol)[..|l + eol| - 1] == l + "\r";
      assert (l + "\r")[..|l + "\r"| - 1] == l;
      assert TrimRight(l + "\r", cut) == TrimRight(l, cut);
    }
  }

  lemma {:induction false} ExtendLastKeepsContents(ls: seq<string>, eol: string)
    requires ls != [] && (eol == "\n" || eol == "\r\n")
    ensures Contents(ExtendLast(ls, eol)) == Contents(ls)
  {
    if |ls| == 1 {
      ContentIgnoresEnding(ls[0], eol);
      assert [ls[0] + eol][1..] == [] && ls[1..] == [];
    } else {
      ExtendLastKeepsContents(ls[1..], eol);
      assert ([ls[0]] + ExtendLast(ls[1..], eol))[1..] == ExtendLast(ls[1..], eol);
    }
  }

  /** strings.Split(s, "\n"). */
  function SplitLF(s: string): (ps: seq<string>)
    ensures ps != []
    decreases |s|
  {
    var i := IndexOf(s, LF);
    if i < 0 then [s] else [s[..i]] + SplitLF(s[i + 1..])
  }

  function TrimCR(p: string): string {
    TrimRight(p, {CR})
  }

  lemma {:induction false} TrimCRIsContent(p: string)
    requires Free(p, LF)
    ensures TrimCR(p) == Content(p)
  {
    if p != "" && p[|p| - 1] == CR {
      TrimCRIsContent(p[..|p| - 1]);
    }
  }

  /** What a split on line feeds leaves after the last line. */
  function LastPiece(s: string): seq<string> {
    if s == "" || Terminated(s) then [""] else []
  }

  /** Splitting on line feeds and dropping carriage returns reads the same lines, with an empty one
      more when the text ends with a line feed or is empty. */
  lemma {:induction false} SplitReadsContents(s: string)
    ensures Map(SplitLF(s), TrimCR) == Contents(Lines(s)) + LastPiece(s)
    decreases |s|
  {
    var i := IndexOf(s, LF);
    if i < 0 {
      TrimCRIsContent(s);
      assert [s][1..] == [];
      if s != "" { SingleLine(s); }
    } else {
      SplitStep(s);
      FirstTerminatedLine(s);
      LastPieceLater(s);
      SplitReadsContents(s[i + 1..]);
      ConsAppend(Content(s[..i]), Contents(Lines(s[i + 1..])), LastPiece(s));
    }
  }

  lemma ConsAppend<T>(x: T, a: seq<T>, b: seq<T>)
    ensures [x] + (a + b) == ([x] + a) + b
  {}

  lemma FirstTerminatedLine(s: string)
    requires IndexOf(s, LF) >= 0
    ensures var i := IndexOf(s, LF); Contents(Lines(s)) == [Content(s[..i])] + Contents(Lines(s[i + 1..]))
  {
    var i := IndexOf(s, LF);
    assert s[..i + 1] == s[..i] + "\n";
    ContentIgnoresEnding(s[..i], "\n");
    FirstLine(s);
    var ls := Lines(s[i + 1..]);
    assert ([s[..i + 1]] + ls)[1..] == ls;
  }

  lemma LastPieceLater(s: string)
    requires IndexOf(s, LF) >= 0
    ensures LastPiece(s) == LastPiece(s[IndexOf(s, LF) + 1..])
  {}

  lemma SplitStep(s: string)
    requires IndexOf(s, LF) >= 0
    ensures var i := IndexOf(s, LF);
      Map(SplitLF(s), TrimCR) == [Content(s[..i])] + Map(SplitLF(s[i + 1..]), TrimCR)
  {
    var i := IndexOf(s, LF);
    TrimCRIsContent(s[..i]);
    var ps := SplitLF(s[i + 1..]);
    assert ([s[..i]] + ps)[1..] == ps;
  }
}
