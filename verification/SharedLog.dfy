/** Several processes, each with its own store, sharing one join log: who knows of which last join.
    RecordJoinIsJoined and OpenIsOpened tie the steps to what Store does to its records and the file. */
module SharedLog {
  import opened FriendActivity
  import opened GoStrings
  import opened GoTime

  /** The last join known for each player, in nanoseconds. */
  type Joins = map<string, int>

  /** What the file says, what each process has in memory, and the clock they share. */
  datatype World = World(file: Joins, stores: seq<Joins>, now: int)

  datatype Step =
    | Opened(m: Joins)             // another process starts
    | Read(i: nat)                 // the first half of RecordJoin: merging
    | Wrote(i: nat, xuid: string)  // and the second: noting the join and writing
    | Joined(i: nat, xuid: string) // both with nobody in between

  /** The later of the two joins of every player. */
  function Both(a: Joins, b: Joins): Joins {
    map x | x in a.Keys + b.Keys ::
      if x !in b then a[x] else if x !in a then b[x] else if b[x] > a[x] then b[x] else a[x]
  }

  function InSeconds(m: Joins): Joins {
    map x | x in m :: Unix(m[x]) * SECOND
  }

  /** a knows of every join in b, or of a later one of the same player. */
  predicate NotBehind(a: Joins, b: Joins) {
    forall x :: x in b ==> x in a && b[x] <= a[x]
  }

  predicate NoneAfter(m: Joins, now: int) {
    forall x :: x in m ==> m[x] <= now
  }

  function AfterRead(w: World, i: nat): World
    requires i < |w.stores|
  {
    w.(stores := w.stores[i := Both(w.stores[i], w.file)])
  }

  function AfterWrite(w: World, i: nat, xuid: string, now: int): World
    requires i < |w.stores|
  {
    var m := w.stores[i][xuid := now];
    World(InSeconds(m), w.stores[i := m], now)
  }

  /** Forgetting a player is not one of the steps. */
  predicate Next(w: World, w': World, step: Step) {
    && w.now <= w'.now
    && match step
       case Opened(m) => NotBehind(w.file, m) && w' == World(w.file, w.stores + [m], w'.now)
       case Read(i) => i < |w.stores| && w' == AfterRead(w, i).(now := w'.now)
       case Wrote(i, xuid) => i < |w.stores| && w' == AfterWrite(w, i, xuid, w'.now)
       case Joined(i, xuid) => i < |w.stores| && w' == AfterWrite(AfterRead(w, i), i, xuid, w'.now)
  }

  predicate StepAt(ws: seq<World>, steps: seq<Step>, k: nat)
    requires |ws| == |steps| + 1 && k < |steps|
  {
    Next(ws[k], ws[k + 1], steps[k])
  }

  predicate IsRun(ws: seq<World>, steps: seq<Step>) {
    |ws| == |steps| + 1 && forall k :: 0 <= k < |steps| ==> StepAt(ws, steps, k)
  }

  // ---------------------------------------------------------------------------------------------
  // The steps are what a store does

  function LastJoins(m: Records): Joins {
    map x | x in m :: m[x].lastJoin
  }

  /** The last joins a text holds: what merging it into an empty store gives. */
  function FileJoins(text: string): Joins {
    LastJoins(MergedWith(map[], text))
  }

  function KeepLater(a: Joins, x: string, t: int): Joins {
    if x !in a || t > a[x] then a[x := t] else a
  }

  lemma MergeOneKeepsLater(m: Records, r: Record)
    ensures LastJoins(MergeOne(m, r)) == KeepLater(LastJoins(m), r.xuid, r.lastJoin)
  {}

  lemma BothKeepLater(a: Joins, b: Joins, x: string, t: int)
    ensures KeepLater(Both(a, b), x, t) == Both(a, KeepLater(b, x, t))
  {}

  lemma {:induction false} MergedJoins(m: Records, es: seq<Record>)
    ensures LastJoins(Merged(m, es)) == Both(LastJoins(m), LastJoins(Merged(map[], es)))
  {
    if es != [] {
      var n := |es| - 1;
      var k, f, r := Merged(m, es[..n]), Merged(map[], es[..n]), es[n];
      MergedJoins(m, es[..n]);
      MergeOneKeepsLater(k, r);
      MergeOneKeepsLater(f, r);
      BothKeepLater(LastJoins(m), LastJoins(f), r.xuid, r.lastJoin);
    }
  }

  lemma {:induction false} MergedStaysClean(m: Records, es: seq<Record>)
    requires AllClean(m) && forall i :: 0 <= i < |es| ==> Clean(es[i])
    ensures AllClean(Merged(m, es))
  {
    if es != [] {
      MergedStaysClean(m, es[..|es| - 1]);
    }
  }

  lemma {:induction false} LoadedNotAhead(es: seq<Record>)
    ensures NotBehind(LastJoins(Merged(map[], es)), LastJoins(Loaded(es)))
  {
    if es != [] {
      var n := |es| - 1;
      LoadedNotAhead(es[..n]);
      MergeOneKeepsLater(Merged(map[], es[..n]), es[n]);
      NotedLastJoin(Loaded(es[..n]), es[n]);
    }
  }

  lemma NotedLastJoin(m: Records, r: Record)
    ensures LastJoins(m[r.xuid := r]) == LastJoins(m)[r.xuid := r.lastJoin]
  {}

  lemma {:induction false} MergedWritten(m: Records, rs: seq<Record>, n: nat)
    requires n <= |rs| && Listing(m, rs)
    ensures var k := Merged(map[], SecondsUpTo(rs, n));
      && (forall i :: 0 <= i < n ==> rs[i].xuid in k)
      && (forall x :: x in k ==> x in m && k[x] == Seconds(m[x]))
  {
    if n > 0 {
      MergedWritten(m, rs, n - 1);
      assert SecondsUpTo(rs, n)[..n - 1] == SecondsUpTo(rs, n - 1);
    }
  }

  /** A written file holds everybody's last join in memory, in whole seconds. */
  lemma WrittenJoins(m: Records, text: string)
    requires Keyed(m) && AllClean(m) && IsFileOf(m, text)
    ensures FileJoins(text) == InSeconds(LastJoins(m))
  {
    var rs: seq<Record> :| Listing(m, rs) && text == TextOf(rs, |rs|);
    EntriesWritten(rs, |rs|);
    AllMergedWritten(m, rs);
    LastJoinsInSeconds(m);
  }

  lemma AllMergedWritten(m: Records, rs: seq<Record>)
    requires Keyed(m) && Listing(m, rs)
    ensures Merged(map[], SecondsUpTo(rs, |rs|)) == SecondsOf(m)
  {
    var k := Merged(map[], SecondsUpTo(rs, |rs|));
    MergedWritten(m, rs, |rs|);
    IsSecondsOf(m, rs, k);
  }

  lemma LastJoinsInSeconds(m: Records)
    ensures LastJoins(SecondsOf(m)) == InSeconds(LastJoins(m))
  {}

  /** The world as the steps see it, of a file text and the records of the stores. */
  function View(text: string, stores: seq<Records>, now: int): World {
    World(FileJoins(text), Map(stores, LastJoins), now)
  }

  lemma {:induction false} ViewOfUpdate(stores: seq<Records>, i: nat, m: Records)
    requires i < |stores|
    ensures Map(stores[i := m], LastJoins) == Map(stores, LastJoins)[i := LastJoins(m)]
  {
    var a, b := Map(stores[i := m], LastJoins), Map(stores, LastJoins)[i := LastJoins(m)];
    forall k | 0 <= k < |stores| ensures a[k] == b[k] {
      MapAt(stores[i := m], LastJoins, k);
      MapAt(stores, LastJoins, k);
    }
  }

  /** What Store.MergeFromFile does is the step Read, and it brings nothing into the records that the
      file cannot hold. */
  lemma MergeFromFileIsRead(text: string, stores: seq<Records>, i: nat, m: Records, now: int)
    requires i < |stores| && Keyed(stores[i]) && AllClean(stores[i]) && m == MergedWith(stores[i], text)
    ensures Keyed(m) && AllClean(m)
    ensures View(text, stores[i := m], now) == AfterRead(View(text, stores, now), i)
  {
    hide Clean, FileJoins, LastJoins;
    EntriesAreClean(ScanLines(text));
    MergedStaysClean(stores[i], EntriesOf(text));
    MergedStaysKeyed(stores[i], EntriesOf(text));
    MergedIsBoth(stores[i], text);
    ViewOfUpdate(stores, i, m);
    MapAt(stores, LastJoins, i);
  }

  lemma MergedIsBoth(m: Records, text: string)
    ensures LastJoins(MergedWith(m, text)) == Both(LastJoins(m), FileJoins(text))
  {
    MergedJoins(m, EntriesOf(text));
  }

  /** Noting a join and writing the file is the step Wrote, for a player ID and a name the file can
      hold. */
  lemma NoteAndWriteIsWrote(text: string, text': string, stores: seq<Records>, i: nat, m: Records,
                            xuid: string, name: string, before: int, now: int)
    requires i < |stores| && Keyed(stores[i]) && AllClean(stores[i]) && Clean(Join(xuid, name, now))
    requires m == stores[i][xuid := Join(xuid, name, now)] && IsFileOf(m, text')
    ensures Keyed(m) && AllClean(m)
    ensures View(text', stores[i := m], now) == AfterWrite(View(text, stores, before), i, xuid, now)
  {
    NotedJoin(stores[i], Join(xuid, name, now));
    WrittenJoins(m, text');
    hide Clean, FileJoins, LastJoins, IsFileOf;
    NotedLastJoin(stores[i], Join(xuid, name, now));
    ViewOfUpdate(stores, i, m);
    MapAt(stores, LastJoins, i);
  }

  /** What Store.RecordJoin does to the records and the file is the step Joined. */
  lemma RecordJoinIsJoined(text: string, text': string, stores: seq<Records>, i: nat, m: Records,
                           xuid: string, name: string, before: int, now: int)
    requires i < |stores| && Keyed(stores[i]) && AllClean(stores[i]) && Clean(Join(xuid, name, now))
    requires m == MergedWith(stores[i], text)[xuid := Join(xuid, name, now)] && IsFileOf(m, text') && before <= now
    ensures Keyed(m) && AllClean(m)
    ensures Next(View(text, stores, before), View(text', stores[i := m], now), Joined(i, xuid))
  {
    hide Clean, FileJoins, LastJoins, IsFileOf;
    var read := MergedWith(stores[i], text);
    MergeFromFileIsRead(text, stores, i, read, before);
    NoteAndWriteIsWrote(text, text', stores[i := read], i, m, xuid, name, before, now);
    assert stores[i := read][i := m] == stores[i := m];
  }

  lemma NotedJoin(m: Records, r: Record)
    requires Keyed(m) && AllClean(m) && Clean(r)
    ensures var k := m[r.xuid := r]; Keyed(k) && AllClean(k)
  {}

  /** What Open reads is never ahead of the file, whatever the file holds. */
  lemma OpenIsOpened(text: string)
    ensures var m := FriendActivity.Read(text); Keyed(m) && AllClean(m) && NotBehind(FileJoins(text), LastJoins(m))
  {
    EntriesAreClean(ScanLines(text));
    LoadedKeepsClean(EntriesOf(text));
    LoadedNotAhead(EntriesOf(text));
  }

  // ---------------------------------------------------------------------------------------------
  // Being in step with the file

  /** Nothing is from the future, the file has whole seconds, and no process knows of a join newer, in
      whole seconds, than the file's. */
  predicate InStep(w: World) {
    && NoneAfter(w.file, w.now) && InSeconds(w.file) == w.file
    && forall i :: 0 <= i < |w.stores| ==> NoneAfter(w.stores[i], w.now) && NotBehind(w.file, InSeconds(w.stores[i]))
  }

  lemma {:induction false} MergedIsWhole(es: seq<Record>)
    requires forall i :: 0 <= i < |es| ==> Seconds(es[i]) == es[i]
    ensures SecondsOf(Merged(map[], es)) == Merged(map[], es)
  {
    if es != [] {
      MergedIsWhole(es[..|es| - 1]);
      var m, r := Merged(map[], es[..|es| - 1]), es[|es| - 1];
      forall x | x in MergeOne(m, r) ensures Seconds(MergeOne(m, r)[x]) == MergeOne(m, r)[x] {
        assert x in m ==> SecondsOf(m)[x] == m[x];
      }
    }
  }

  /** Any file without joins from the future is a start, before the first process opens it. */
  lemma AnyFileIsInStep(text: string, now: int)
    requires NoneAfter(FileJoins(text), now)
    ensures InStep(World(FileJoins(text), [], now))
  {
    EntriesAreClean(ScanLines(text));
    MergedIsWhole(EntriesOf(text));
    LastJoinsInSeconds(MergedWith(map[], text));
  }

  lemma WholeSeconds(t: int, u: int)
    ensures Unix(t) * SECOND <= t && Unix(Unix(t) * SECOND) == Unix(t)
    ensures t <= u ==> Unix(t) <= Unix(u)
  {}

  lemma InSecondsFacts(m: Joins, now: int)
    requires NoneAfter(m, now)
    ensures NoneAfter(InSeconds(m), now) && InSeconds(InSeconds(m)) == InSeconds(m)
  {
    forall x | x in m ensures Unix(m[x]) * SECOND <= now && Unix(Unix(m[x]) * SECOND) == Unix(m[x]) {
      WholeSeconds(m[x], now);
    }
  }

  /** Merging a file that a store is not ahead of, and then noting a join: in whole seconds, the file with
      that one join. */
  lemma JoinedFile(m: Joins, file: Joins, xuid: string, now: int)
    requires InSeconds(file) == file && NotBehind(file, InSeconds(m))
    ensures InSeconds(Both(m, file)[xuid := now]) == file[xuid := Unix(now) * SECOND]
  {
    var a, b := InSeconds(Both(m, file)[xuid := now]), file[xuid := Unix(now) * SECOND];
    forall x ensures (x in a <==> x in b) && (x in a ==> a[x] == b[x]) {
      if x in m {
        assert x in InSeconds(m) && x in file;
      }
      if x in file && x != xuid {
        assert file[x] == InSeconds(file)[x];
        if x in m { WholeSeconds(m[x], file[x]); WholeSeconds(file[x], m[x]); }
      }
    }
  }

  /** The later time of every player in both is not after now. */
  lemma BothNoneAfter(a: Joins, b: Joins, now: int)
    requires NoneAfter(a, now) && NoneAfter(b, now)
    ensures NoneAfter(Both(a, b), now)
  {}

  lemma {:induction false} NotBehindOn(a: Joins, b: Joins, c: Joins)
    requires NotBehind(a, b) && NotBehind(b, c)
    ensures NotBehind(a, c)
  {}

  lemma JoinKeepsInStep(w: World, w': World, i: nat, xuid: string)
    requires InStep(w) && Next(w, w', Joined(i, xuid))
    ensures InStep(w') && w'.file == w.file[xuid := Unix(w'.now) * SECOND] && NotBehind(w'.file, w.file)
  {
    var m := Both(w.stores[i], w.file)[xuid := w'.now];
    JoinedFile(w.stores[i], w.file, xuid, w'.now);
    BothNoneAfter(w.stores[i], w.file, w.now);
    InSecondsFacts(m, w'.now);
    assert w'.stores == w.stores[i := m];
    assert NotBehind(w'.file, w.file) by {
      if xuid in w.file {
        WholeSeconds(w.file[xuid], w'.now);
        assert w.file[xuid] == InSeconds(w.file)[xuid];
      }
    }
    forall k | 0 <= k < |w'.stores| && k != i ensures NotBehind(w'.file, InSeconds(w'.stores[k])) {
      NotBehindOn(w'.file, w.file, InSeconds(w.stores[k]));
    }
  }

  lemma OpenKeepsInStep(w: World, w': World, m: Joins)
    requires InStep(w) && Next(w, w', Opened(m))
    ensures InStep(w')
  {
    forall x | x in m ensures Unix(m[x]) * SECOND <= m[x] {
      WholeSeconds(m[x], m[x]);
    }
  }

  lemma ReadKeepsInStep(w: World, i: nat)
    requires InStep(w) && i < |w.stores|
    ensures InStep(AfterRead(w, i))
  {
    BothNoneAfter(w.stores[i], w.file, w.now);
    BothNotAhead(w.stores[i], w.file);
  }

  lemma BothNotAhead(m: Joins, file: Joins)
    requires InSeconds(file) == file && NotBehind(file, InSeconds(m))
    ensures NotBehind(file, InSeconds(Both(m, file)))
  {
    var b := Both(m, file);
    forall x | x in b ensures x in file && Unix(b[x]) * SECOND <= file[x] {
      assert x in m ==> x in InSeconds(m);
      assert x in file ==> file[x] == InSeconds(file)[x];
    }
  }

  /** Process i may note a join of x without reading first: it knows of every join in the file but,
      perhaps, x's own. */
  predicate MayWrite(w: World, i: nat, xuid: string)
    requires i < |w.stores|
  {
    NotBehind(InSeconds(w.stores[i]), w.file - {xuid})
  }

  /** A write loses none of the file's joins exactly then. */
  lemma WriteKeepsFileIff(w: World, i: nat, xuid: string, now: int)
    requires Past(w) && InSeconds(w.file) == w.file && i < |w.stores| && w.now <= now
    ensures NotBehind(AfterWrite(w, i, xuid, now).file, w.file) <==> MayWrite(w, i, xuid)
  {
    var m := w.stores[i];
    var after := InSeconds(m[xuid := now]);
    if xuid in w.file {
      WholeSeconds(w.file[xuid], now);
      assert w.file[xuid] == InSeconds(w.file)[xuid];
    }
    if NotBehind(after, w.file) {
      forall x | x in w.file - {xuid} ensures x in InSeconds(m) && w.file[x] <= InSeconds(m)[x] {
        assert x in after && w.file[x] <= after[x];
      }
    }
    if MayWrite(w, i, xuid) {
      forall x | x in w.file && x != xuid ensures x in after && w.file[x] <= after[x] {
        assert x in w.file - {xuid};
      }
    }
  }

  /** And then, in step, it adds just the one join. */
  lemma WriteKeepsInStep(w: World, i: nat, xuid: string, now: int)
    requires InStep(w) && i < |w.stores| && w.now <= now && MayWrite(w, i, xuid)
    ensures var w' := AfterWrite(w, i, xuid, now); InStep(w') && w'.file == w.file[xuid := Unix(now) * SECOND]
  {
    var m := w.stores[i];
    var w' := AfterWrite(w, i, xuid, now);
    WriteKeepsFileIff(w, i, xuid, now);
    InSecondsFacts(m[xuid := now], now);
    WrittenFile(m, w.file, xuid, now);
    forall k | 0 <= k < |w.stores| && k != i ensures NotBehind(w'.file, InSeconds(w.stores[k])) {
      NotBehindOn(w'.file, w.file, InSeconds(w.stores[k]));
    }
  }

  lemma WrittenFile(m: Joins, file: Joins, xuid: string, now: int)
    requires NotBehind(file, InSeconds(m)) && NotBehind(InSeconds(m), file - {xuid})
    ensures InSeconds(m[xuid := now]) == file[xuid := Unix(now) * SECOND]
  {
    var a, b := InSeconds(m[xuid := now]), file[xuid := Unix(now) * SECOND];
    forall x ensures (x in a <==> x in b) && (x in a ==> a[x] == b[x]) {
      if x != xuid {
        assert x in m <==> x in InSeconds(m);
        assert x in file <==> x in file - {xuid};
      }
    }
  }

  // ---------------------------------------------------------------------------------------------
  // When the file is the log of joins

  predicate Notes(step: Step) {
    step.Wrote? || step.Joined?
  }

  /** The log: when each player last joined, by the first n steps of a run. */
  function Log(ws: seq<World>, steps: seq<Step>, n: nat): Joins
    requires |ws| == |steps| + 1 && n <= |steps|
  {
    if n == 0 then ws[0].file
    else if Notes(steps[n - 1]) then Log(ws, steps, n - 1)[steps[n - 1].xuid := Unix(ws[n].now) * SECOND]
    else Log(ws, steps, n - 1)
  }

  /** What a step may do without losing a join: only a write that is not right after its read may not. */
  predicate Harmless(w: World, step: Step) {
    step.Wrote? && step.i < |w.stores| ==> MayWrite(w, step.i, step.xuid)
  }

  predicate HarmlessUpTo(ws: seq<World>, steps: seq<Step>, n: nat)
    requires |ws| == |steps| + 1 && n <= |steps|
  {
    forall k :: 0 <= k < n ==> Harmless(ws[k], steps[k])
  }

  lemma StepKeepsInStep(w: World, w': World, step: Step)
    requires InStep(w) && Next(w, w', step) && Harmless(w, step)
    ensures InStep(w')
    ensures w'.file == if Notes(step) then w.file[step.xuid := Unix(w'.now) * SECOND] else w.file
  {
    match step
    case Opened(m) => OpenKeepsInStep(w, w', m);
    case Read(i) => ReadKeepsInStep(w, i);
    case Wrote(i, xuid) => WriteKeepsInStep(w, i, xuid, w'.now);
    case Joined(i, xuid) => JoinKeepsInStep(w, w', i, xuid);
  }

  /** As long as every write was harmless, the file says for every player exactly when they last joined,
      whichever processes the joins went through, and no process knows better. */
  lemma {:induction false} FileIsTheLog(ws: seq<World>, steps: seq<Step>, n: nat)
    requires IsRun(ws, steps) && InStep(ws[0]) && n <= |steps| && HarmlessUpTo(ws, steps, n)
    ensures InStep(ws[n]) && ws[n].file == Log(ws, steps, n)
  {
    if n > 0 {
      FileIsTheLog(ws, steps, n - 1);
      assert StepAt(ws, steps, n - 1);
      assert Harmless(ws[n - 1], steps[n - 1]);
      StepKeepsInStep(ws[n - 1], ws[n], steps[n - 1]);
    }
  }

  predicate WholeFile(w: World) {
    Past(w) && InSeconds(w.file) == w.file
  }

  /** One step loses none of the file's joins exactly if it is harmless. */
  lemma StepKeepsFileIff(w: World, w': World, step: Step)
    requires WholeFile(w) && Next(w, w', step)
    ensures WholeFile(w')
    ensures NotBehind(w'.file, w.file) <==> Harmless(w, step)
  {
    StepKeeps(w, w', step);
    match step
    case Opened(m) =>
    case Read(i) =>
    case Wrote(i, xuid) =>
      InSecondsFacts(w.stores[i][xuid := w'.now], w'.now);
      WriteKeepsFileIff(w, i, xuid, w'.now);
    case Joined(i, xuid) =>
      var r := AfterRead(w, i);
      ReadKeeps(w, i);
      InSecondsFacts(r.stores[i][xuid := w'.now], w'.now);
      BothKnowsFile(w.stores[i], w.file);
      WriteKeepsFileIff(r, i, xuid, w'.now);
  }

  /** A process that has just read knows of every join in the file. */
  lemma BothKnowsFile(m: Joins, file: Joins)
    requires InSeconds(file) == file
    ensures NotBehind(InSeconds(Both(m, file)), file)
  {
    var b := Both(m, file);
    forall x | x in file ensures x in InSeconds(b) && file[x] <= InSeconds(b)[x] {
      assert file[x] == InSeconds(file)[x];
      WholeSeconds(file[x], b[x]);
    }
  }

  /** No player's last join in the file ever goes back, and nobody drops out of it. */
  predicate NeverBack(ws: seq<World>) {
    forall j, n :: 0 <= j <= n < |ws| ==> NotBehind(ws[n].file, ws[j].file)
  }

  lemma {:induction false} RunKeepsWhole(ws: seq<World>, steps: seq<Step>, n: nat)
    requires IsRun(ws, steps) && WholeFile(ws[0]) && n <= |steps|
    ensures WholeFile(ws[n])
  {
    if n > 0 {
      RunKeepsWhole(ws, steps, n - 1);
      assert StepAt(ws, steps, n - 1);
      StepKeepsFileIff(ws[n - 1], ws[n], steps[n - 1]);
    }
  }

  lemma {:induction false} HarmlessNeverBack(ws: seq<World>, steps: seq<Step>, j: nat, n: nat)
    requires IsRun(ws, steps) && WholeFile(ws[0]) && j <= n <= |steps| && HarmlessUpTo(ws, steps, n)
    ensures NotBehind(ws[n].file, ws[j].file)
  {
    if j < n {
      HarmlessNeverBack(ws, steps, j, n - 1);
      RunKeepsWhole(ws, steps, n - 1);
      assert StepAt(ws, steps, n - 1);
      assert Harmless(ws[n - 1], steps[n - 1]);
      StepKeepsFileIff(ws[n - 1], ws[n], steps[n - 1]);
      NotBehindOn(ws[n].file, ws[n - 1].file, ws[j].file);
    }
  }

  /** Over a whole run, the file never goes back exactly if every write is harmless. */
  lemma NeverBackIffHarmless(ws: seq<World>, steps: seq<Step>)
    requires IsRun(ws, steps) && WholeFile(ws[0])
    ensures NeverBack(ws) <==> HarmlessUpTo(ws, steps, |steps|)
  {
    if HarmlessUpTo(ws, steps, |steps|) {
      forall j, n | 0 <= j <= n < |ws| ensures NotBehind(ws[n].file, ws[j].file) {
        HarmlessNeverBack(ws, steps, j, n);
      }
    }
    if NeverBack(ws) {
      forall k | 0 <= k < |steps| ensures Harmless(ws[k], steps[k]) {
        RunKeepsWhole(ws, steps, k);
        assert StepAt(ws, steps, k);
        assert NotBehind(ws[k + 1].file, ws[k].file);
        StepKeepsFileIff(ws[k], ws[k + 1], steps[k]);
      }
    }
  }

  /** The last of the first n steps that process i took, or -1. */
  function LastStepOf(steps: seq<Step>, n: nat, i: nat): (r: int)
    requires n <= |steps|
    ensures -1 <= r < n
    ensures r >= 0 ==> !steps[r].Opened? && steps[r].i == i
    ensures forall k :: r < k < n && !steps[k].Opened? ==> steps[k].i != i
  {
    if n == 0 then -1
    else if !steps[n - 1].Opened? && steps[n - 1].i == i then n - 1
    else LastStepOf(steps, n - 1, i)
  }

  /** RecordJoin holds its store's lock: a process reads right before it writes, although others may come
      in between. */
  predicate ReadsFirst(steps: seq<Step>) {
    forall n :: 0 <= n < |steps| && steps[n].Wrote? ==>
      var r := LastStepOf(steps, n, steps[n].i); r >= 0 && steps[r].Read?
  }

  /** Step k notes a join later, in whole seconds, than what is known of the player, who is not x. */
  predicate LateJoin(ws: seq<World>, steps: seq<Step>, k: nat, known: Joins, x: string)
    requires |ws| == |steps| + 1 && k < |steps|
  {
    && Notes(steps[k]) && steps[k].xuid != x
    && (steps[k].xuid in known ==> Unix(known[steps[k].xuid]) < Unix(ws[k + 1].now))
  }

  /** Step n is not a write, or no other process has noted a join, later than the writer knows, of a
      player other than the one written, since the writer last read. */
  predicate NothingMissed(ws: seq<World>, steps: seq<Step>, n: nat)
    requires |ws| == |steps| + 1 && n < |steps|
  {
    steps[n].Wrote? && steps[n].i < |ws[n].stores| ==>
      forall k :: LastStepOf(steps, n, steps[n].i) < k < n ==>
        !LateJoin(ws, steps, k, ws[n].stores[steps[n].i], steps[n].xuid)
  }

  lemma {:induction false} StoreUntouched(ws: seq<World>, steps: seq<Step>, r: nat, n: nat, i: nat)
    requires IsRun(ws, steps) && r <= n <= |steps| && i < |ws[r].stores|
    requires forall k :: r <= k < n && !steps[k].Opened? ==> steps[k].i != i
    ensures i < |ws[n].stores| && ws[n].stores[i] == ws[r].stores[i]
  {
    if r < n {
      StoreUntouched(ws, steps, r, n - 1, i);
      assert StepAt(ws, steps, n - 1);
    }
  }

  /** What the file has gathered since process i read is what the steps since have noted. */
  lemma {:induction false} StillKnown(ws: seq<World>, steps: seq<Step>, r: nat, n: nat, known: Joins, x: string)
    requires IsRun(ws, steps) && InStep(ws[0]) && r <= n <= |steps| && HarmlessUpTo(ws, steps, n)
    requires NotBehind(InSeconds(known), ws[r].file - {x})
    requires forall k :: r <= k < n ==> !LateJoin(ws, steps, k, known, x)
    ensures NotBehind(InSeconds(known), ws[n].file - {x})
  {
    if r < n {
      StillKnown(ws, steps, r, n - 1, known, x);
      FileIsTheLog(ws, steps, n - 1);
      assert StepAt(ws, steps, n - 1);
      assert Harmless(ws[n - 1], steps[n - 1]);
      StepKeepsInStep(ws[n - 1], ws[n], steps[n - 1]);
      assert !LateJoin(ws, steps, n - 1, known, x);
    }
  }

  lemma LateJoinIsMissing(ws: seq<World>, steps: seq<Step>, k: nat, n: nat, known: Joins, x: string)
    requires IsRun(ws, steps) && InStep(ws[0]) && k < n <= |steps| && HarmlessUpTo(ws, steps, n)
    requires LateJoin(ws, steps, k, known, x)
    ensures !NotBehind(InSeconds(known), ws[n].file - {x})
  {
    var y := steps[k].xuid;
    FileIsTheLog(ws, steps, k);
    assert StepAt(ws, steps, k);
    assert Harmless(ws[k], steps[k]);
    StepKeepsInStep(ws[k], ws[k + 1], steps[k]);
    HarmlessNeverBack(ws, steps, k + 1, n);
    assert y in ws[n].file - {x} && (ws[n].file - {x})[y] >= Unix(ws[k + 1].now) * SECOND;
  }

  /** While the file is the log, a write is harmless exactly if nothing was missed. */
  lemma HarmlessIffNothingMissed(ws: seq<World>, steps: seq<Step>, n: nat)
    requires IsRun(ws, steps) && InStep(ws[0]) && ReadsFirst(steps) && n < |steps| && HarmlessUpTo(ws, steps, n)
    ensures Harmless(ws[n], steps[n]) <==> NothingMissed(ws, steps, n)
  {
    if steps[n].Wrote? {
      var i, x := steps[n].i, steps[n].xuid;
      var r := LastStepOf(steps, n, i);
      FileIsTheLog(ws, steps, r);
      assert StepAt(ws, steps, r) && StepAt(ws, steps, n);
      BothKnowsFile(ws[r].stores[i], ws[r].file);
      StoreUntouched(ws, steps, r + 1, n, i);
      var known := ws[n].stores[i];
      if NothingMissed(ws, steps, n) {
        StillKnown(ws, steps, r + 1, n, known, x);
      } else {
        var k :| r < k < n && LateJoin(ws, steps, k, known, x);
        LateJoinIsMissing(ws, steps, k, n, known, x);
      }
    }
  }

  lemma {:induction false} MissesNothing(ws: seq<World>, steps: seq<Step>, n: nat)
    requires IsRun(ws, steps) && InStep(ws[0]) && ReadsFirst(steps) && n <= |steps|
    requires forall k :: 0 <= k < n ==> NothingMissed(ws, steps, k)
    ensures HarmlessUpTo(ws, steps, n)
  {
    if n > 0 {
      MissesNothing(ws, steps, n - 1);
      HarmlessIffNothingMissed(ws, steps, n - 1);
    }
  }

  /** However the reads and writes of any number of processes interleave: the file never loses a join
      exactly if every write comes before another process has noted a join that the writer, having read,
      does not know of, its own player's aside; and then the file is the log all along. */
  lemma FileNeverGoesBackIff(ws: seq<World>, steps: seq<Step>)
    requires IsRun(ws, steps) && InStep(ws[0]) && ReadsFirst(steps)
    ensures NeverBack(ws) <==> forall n :: 0 <= n < |steps| ==> NothingMissed(ws, steps, n)
    ensures NeverBack(ws) ==> forall n :: 0 <= n <= |steps| ==> ws[n].file == Log(ws, steps, n)
  {
    NeverBackIffHarmless(ws, steps);
    if NeverBack(ws) {
      forall n | 0 <= n <= |steps| ensures ws[n].file == Log(ws, steps, n) {
        FileIsTheLog(ws, steps, n);
      }
      forall n | 0 <= n < |steps| ensures NothingMissed(ws, steps, n) {
        HarmlessIffNothingMissed(ws, steps, n);
      }
    } else if forall n :: 0 <= n < |steps| ==> NothingMissed(ws, steps, n) {
      MissesNothing(ws, steps, |steps|);
    }
  }

  /** All of it from any file without joins from the future, before the first process opens it. */
  lemma FileNeverGoesBackFromAnyFile(text: string, ws: seq<World>, steps: seq<Step>)
    requires IsRun(ws, steps) && ReadsFirst(steps)
    requires ws[0] == World(FileJoins(text), [], ws[0].now) && NoneAfter(FileJoins(text), ws[0].now)
    ensures NeverBack(ws) <==> forall n :: 0 <= n < |steps| ==> NothingMissed(ws, steps, n)
    ensures NeverBack(ws) ==> forall n :: 0 <= n <= |steps| ==> ws[n].file == Log(ws, steps, n)
    ensures (forall k :: 0 <= k < |steps| ==> !steps[k].Wrote?) ==> NeverBack(ws)
  {
    AnyFileIsInStep(text, ws[0].now);
    FileNeverGoesBackIff(ws, steps);
    if forall k :: 0 <= k < |steps| ==> !steps[k].Wrote? {
      FileNeverGoesBack(ws, steps);
    }
  }

  /** Joins with nobody in between never lose anything. */
  lemma FileNeverGoesBack(ws: seq<World>, steps: seq<Step>)
    requires IsRun(ws, steps) && WholeFile(ws[0]) && forall k :: 0 <= k < |steps| ==> !steps[k].Wrote?
    ensures NeverBack(ws)
  {
    NeverBackIffHarmless(ws, steps);
  }

  // ---------------------------------------------------------------------------------------------
  // The file may lose a join, its recorder does not

  /** Nothing is from the future. */
  predicate Past(w: World) {
    NoneAfter(w.file, w.now) && forall i :: 0 <= i < |w.stores| ==> NoneAfter(w.stores[i], w.now)
  }

  /** Every process still knows everything it knew. */
  predicate Remembers(w: World, w': World) {
    |w.stores| <= |w'.stores| && forall i :: 0 <= i < |w.stores| ==> NotBehind(w'.stores[i], w.stores[i])
  }

  lemma ReadKeeps(w: World, i: nat)
    requires Past(w) && i < |w.stores|
    ensures Past(AfterRead(w, i)) && Remembers(w, AfterRead(w, i))
  {
    BothNoneAfter(w.stores[i], w.file, w.now);
  }

  lemma WriteKeeps(w: World, i: nat, xuid: string, now: int)
    requires Past(w) && i < |w.stores| && w.now <= now
    ensures Past(AfterWrite(w, i, xuid, now)) && Remembers(w, AfterWrite(w, i, xuid, now))
  {
    InSecondsFacts(w.stores[i][xuid := now], now);
  }

  lemma RemembersOn(a: World, b: World, c: World)
    requires Remembers(a, b) && Remembers(b, c)
    ensures Remembers(a, c)
  {
    forall i | 0 <= i < |a.stores| ensures NotBehind(c.stores[i], a.stores[i]) {
      NotBehindOn(c.stores[i], b.stores[i], a.stores[i]);
    }
  }

  lemma StepKeeps(w: World, w': World, step: Step)
    requires Past(w) && Next(w, w', step)
    ensures Past(w') && Remembers(w, w')
  {
    match step
    case Opened(m) =>
    case Read(i) => ReadKeeps(w, i);
    case Wrote(i, xuid) => WriteKeeps(w, i, xuid, w'.now);
    case Joined(i, xuid) =>
      var r := AfterRead(w, i);
      ReadKeeps(w, i);
      WriteKeeps(r, i, xuid, w'.now);
      RemembersOn(w, r, w');
  }

  lemma {:induction false} RunKeeps(ws: seq<World>, steps: seq<Step>, j: nat, n: nat)
    requires IsRun(ws, steps) && j <= n <= |steps| && Past(ws[j])
    ensures Past(ws[n]) && Remembers(ws[j], ws[n])
  {
    if j < n {
      RunKeeps(ws, steps, j, n - 1);
      assert StepAt(ws, steps, n - 1);
      StepKeeps(ws[n - 1], ws[n], steps[n - 1]);
      RemembersOn(ws[j], ws[n - 1], ws[n]);
    }
  }

  predicate WritesAs(step: Step, i: nat) {
    (step.Wrote? || step.Joined?) && step.i == i
  }

  lemma WriteShows(w: World, w': World, step: Step, i: nat)
    requires Next(w, w', step) && WritesAs(step, i)
    ensures i < |w'.stores| && w'.file == InSeconds(w'.stores[i])
    ensures step.xuid in w'.stores[i] && w'.stores[i][step.xuid] == w'.now
  {}

  lemma SecondsNotBehind(a: Joins, b: Joins)
    requires NotBehind(a, b)
    ensures NotBehind(InSeconds(a), InSeconds(b))
  {
    forall x | x in b ensures x in a && Unix(b[x]) <= Unix(a[x]) {
      WholeSeconds(b[x], a[x]);
    }
  }

  /** However reads and writes interleave: what process i knew after noting a join in step j, that join
      with it, stays in its memory, and is in the file again right after each later write of process i. */
  lemma JoinComesBack(ws: seq<World>, steps: seq<Step>, j: nat, n: nat, i: nat)
    requires IsRun(ws, steps) && Past(ws[0]) && j <= n < |steps| && WritesAs(steps[j], i)
    ensures i < |ws[j + 1].stores| <= |ws[n + 1].stores|
    ensures var known := ws[j + 1].stores[i];
      && steps[j].xuid in known && known[steps[j].xuid] == ws[j + 1].now
      && NotBehind(ws[n + 1].stores[i], known)
      && (WritesAs(steps[n], i) ==> NotBehind(ws[n + 1].file, InSeconds(known)))
  {
    RunKeeps(ws, steps, 0, j + 1);
    RunKeeps(ws, steps, j + 1, n + 1);
    assert StepAt(ws, steps, j) && StepAt(ws, steps, n);
    WriteShows(ws[j], ws[j + 1], steps[j], i);
    SecondsNotBehind(ws[n + 1].stores[i], ws[j + 1].stores[i]);
    if WritesAs(steps[n], i) {
      WriteShows(ws[n], ws[n + 1], steps[n], i);
    }
  }

  /** Two processes that both read before either writes: the first one's join is not in the file. */
  lemma InterleavedJoinIsLost(a: string, b: string, t: int) returns (ws: seq<World>, steps: seq<Step>)
    requires a != b
    ensures IsRun(ws, steps) && InStep(ws[0]) && steps == [Read(0), Read(1), Wrote(0, a), Wrote(1, b)]
    ensures a in ws[3].file && a !in ws[4].file && |ws[4].stores| == 2 && a in ws[4].stores[0]
  {
    var w := World(map[], [map[], map[]], t);
    var w3 := AfterWrite(w, 0, a, t);
    var w4 := AfterWrite(w3, 1, b, t);
    ws := [w, w, w, w3, w4];
    steps := [Read(0), Read(1), Wrote(0, a), Wrote(1, b)];
    assert Both(map[], map[]) == map[];
    assert AfterRead(w, 0) == w && AfterRead(w, 1) == w;
  }

  /** A player forgotten in one process comes back with another one's next merge and write exactly if
      that one still has the player in memory. */
  lemma ForgottenComesBackIff(m: Records, other: Records, x: string, text: string)
    requires Keyed(m) && AllClean(m)
    ensures IsFileOf(m - {x}, text) ==> x !in FileJoins(text)
    ensures IsFileOf(m - {x}, text) ==> (x in MergedWith(other, text) <==> x in other)
  {
    if IsFileOf(m - {x}, text) {
      WrittenJoins(m - {x}, text);
      MergedIsBoth(other, text);
      assert x in MergedWith(other, text) <==> x in LastJoins(MergedWith(other, text));
      assert x !in LastJoins(m - {x});
    }
  }
}
