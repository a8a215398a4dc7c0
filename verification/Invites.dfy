/** The invite loop: its place in the list is kept in a file, so that stops, session ends and
    restarts of the process neither skip a player nor start over. */
module Invites {
  import opened GoStrings

  const DEFAULT_INTERVAL := 10_000
  const MIN_INTERVAL := 1_000

  datatype ListName = Unset | Queue | Accepted

  /** The state file. interval is what parsing its text gives, in milliseconds. */
  datatype InviteState = InviteState(running: bool, interval: Option<int>, last: string, list: ListName)

  /** The two invite lists as readXUIDList reads them. */
  datatype Lists = Lists(queue: seq<string>, accepted: seq<string>)
  {
    function Of(list: ListName): seq<string> {
      if list.Accepted? then accepted else queue
    }
  }

  /** An interval that cannot be used falls back to the default. */
  function ResumeInterval(interval: Option<int>): int {
    if interval.Some? && interval.value >= MIN_INTERVAL then interval.value else DEFAULT_INTERVAL
  }

  /** Just after last, or the top if last is empty or not in the list. */
  function ResumeIndex(xuids: seq<string>, last: string): (i: nat)
    ensures i <= |xuids|
    ensures i > 0 ==> xuids[i - 1] == last && last != ""
    ensures i == 0 ==> last == "" || forall j :: 0 <= j < |xuids| ==> xuids[j] != last
  {
    if last == "" then 0 else After(xuids, last, 0)
  }

  function After(xuids: seq<string>, last: string, from: nat): (i: nat)
    requires from <= |xuids|
    ensures i == 0 || (from < i <= |xuids| && xuids[i - 1] == last)
    ensures i == 0 ==> forall j :: from <= j < |xuids| ==> xuids[j] != last
    ensures i > 0 ==> forall j :: from <= j < i - 1 ==> xuids[j] != last
    decreases |xuids| - from
  {
    if from == |xuids| then 0 else if xuids[from] == last then from + 1 else After(xuids, last, from + 1)
  }

  method FindResumeIndex(xuids: seq<string>, last: string) returns (i: nat)
    ensures i == ResumeIndex(xuids, last)
  {
    if last == "" {
      return 0;
    }
    for k := 0 to |xuids|
      invariant After(xuids, last, 0) == After(xuids, last, k)
    {
      if xuids[k] == last {
        return k + 1;
      }
    }
    return 0;
  }

  // ---------------------------------------------------------------------------------------------
  // Reading a list

  function XuidOf(line: string): string {
    var comma := IndexOf(line, ',');
    if comma < 0 then line else line[..comma]
  }

  /** The player of a line is all of it, or what stands before the first comma. */
  lemma XuidEndsAtComma(line: string)
    ensures var xuid := XuidOf(line);
      Free(xuid, ',') && (line == xuid || (xuid <= line && |xuid| < |line| && line[|xuid|] == ','))
  {}

  predicate NoDuplicates(xs: seq<string>) {
    forall i, j :: 0 <= i < j < |xs| ==> xs[i] != xs[j]
  }

  /** xs are the non-empty players of the first n lines, each once and in the order first seen: firsts
      says on which line each was. */
  ghost predicate FirstSeen(lines: seq<string>, n: nat, xs: seq<string>, firsts: seq<nat>)
    requires n <= |lines|
  {
    && |firsts| == |xs|
    && (forall i :: 0 <= i < |xs| ==> firsts[i] < n && xs[i] == XuidOf(lines[firsts[i]]) && xs[i] != "")
    && (forall i, j :: 0 <= i < j < |xs| ==> firsts[i] < firsts[j])
    && (forall i, k :: 0 <= i < |xs| && 0 <= k < firsts[i] ==> XuidOf(lines[k]) != xs[i])
    && (forall k :: 0 <= k < n && XuidOf(lines[k]) != "" ==> XuidOf(lines[k]) in xs)
  }

  lemma SeenAgain(lines: seq<string>, n: nat, xs: seq<string>, firsts: seq<nat>)
    requires n < |lines| && FirstSeen(lines, n, xs, firsts) && (XuidOf(lines[n]) == "" || XuidOf(lines[n]) in xs)
    ensures FirstSeen(lines, n + 1, xs, firsts)
  {}

  lemma SeenFirst(lines: seq<string>, n: nat, xs: seq<string>, firsts: seq<nat>)
    requires n < |lines| && FirstSeen(lines, n, xs, firsts) && XuidOf(lines[n]) != "" && XuidOf(lines[n]) !in xs
    ensures FirstSeen(lines, n + 1, xs + [XuidOf(lines[n])], firsts + [n])
  {
    var xs', firsts' := xs + [XuidOf(lines[n])], firsts + [n];
    forall k | 0 <= k < n ensures XuidOf(lines[k]) != XuidOf(lines[n]) {
      if XuidOf(lines[k]) != "" {
        assert XuidOf(lines[k]) in xs;
      }
    }
    forall k | 0 <= k < n + 1 && XuidOf(lines[k]) != "" ensures XuidOf(lines[k]) in xs' {
      assert k < n ==> XuidOf(lines[k]) in xs;
      assert xs'[|xs|] == XuidOf(lines[n]);
    }
  }

  lemma FirstSeenOnce(lines: seq<string>, n: nat, xs: seq<string>, firsts: seq<nat>)
    requires n <= |lines| && FirstSeen(lines, n, xs, firsts)
    ensures NoDuplicates(xs)
  {
    forall i, j | 0 <= i < j < |xs| ensures xs[i] != xs[j] {
      assert XuidOf(lines[firsts[i]]) == xs[i];
    }
  }

  /** readXUIDList on the lines of a file. */
  method ReadXuidList(lines: seq<string>) returns (xuids: seq<string>, ghost firsts: seq<nat>)
    ensures FirstSeen(lines, |lines|, xuids, firsts) && NoDuplicates(xuids)
    ensures forall i :: 0 <= i < |xuids| ==> xuids[i] != ""
  {
    xuids, firsts := [], [];
    var seen: set<string> := {};
    for n := 0 to |lines|
      invariant FirstSeen(lines, n, xuids, firsts)
      invariant forall x :: x in seen <==> x in xuids
    {
      var line := lines[n];
      var xuid := XuidOf(line);
      if line == "" || xuid == "" || xuid in seen {
        SeenAgain(lines, n, xuids, firsts);
        continue;
      }
      SeenFirst(lines, n, xuids, firsts);
      seen := seen + {xuid};
      xuids, firsts := xuids + [xuid], firsts + [n];
    }
    FirstSeenOnce(lines, |lines|, xuids, firsts);
  }

  // ---------------------------------------------------------------------------------------------
  // Steps

  datatype Phase = Top | Waiting | Handled | LapEnd

  /** A goroutine of run: at the top of a lap, waiting before the next player, done with that player
      but not yet recorded, or at the end of the lap. */
  datatype Loop = Loop(list: ListName, interval: int, resumeAfter: string,
                       xuids: seq<string>, next: nat, phase: Phase, cancelled: bool)

  /** recordProgress: nothing is written for a cancelled loop. */
  function Recorded(file: InviteState, l: Loop, last: string): InviteState {
    if l.cancelled then file else InviteState(true, Some(l.interval), last, l.list)
  }

  predicate ValidLoop(l: Loop) {
    && (l.phase.Waiting? || l.phase.Handled? ==> l.next < |l.xuids|)
    && (l.phase.LapEnd? ==> l.next == |l.xuids|)
  }

  function LoopAfter(l: Loop, lists: Lists): Loop {
    match l.phase
    case Top =>
      var xs := lists.Of(l.list);
      var from := ResumeIndex(xs, l.resumeAfter);
      if xs == [] then l
      else l.(resumeAfter := "", xuids := xs, next := from, phase := if from < |xs| then Waiting else LapEnd)
    case Waiting => l.(phase := Handled)
    case Handled => l.(next := l.next + 1, phase := if l.next + 1 < |l.xuids| then Waiting else LapEnd)
    case LapEnd => l.(phase := Top)
  }

  function FileAfter(l: Loop, file: InviteState): InviteState
    requires ValidLoop(l)
  {
    match l.phase
    case Handled => Recorded(file, l, l.xuids[l.next])
    case LapEnd => Recorded(file, l, "")
    case _ => file
  }

  /** The player handled by a step. A cancelled loop sends nothing any more. */
  function Visit(l: Loop): seq<string>
    requires ValidLoop(l)
  {
    if l.phase.Waiting? && !l.cancelled then [l.xuids[l.next]] else []
  }

  /** The loops of all sessions so far, which of them is the controller's running one, the players
      handled, and how many had been at each stop or session end. */
  datatype Sys = Sys(file: InviteState, loops: seq<Loop>, current: Option<nat>, visited: seq<string>, cuts: set<nat>)

  datatype Step =
    | Go(id: nat)                                            // a loop takes its next step
    | Start(interval: int)                                   // start without choosing a list
    | StartList(interval: int, list: ListName, fromTop: bool)
    | Stop
    | SessionEnds                                            // and a new controller takes over
    | ResumeIfWanted

  function Effective(list: ListName): ListName {
    if list.Accepted? then Accepted else Queue
  }

  function StartPosition(file: InviteState, list: ListName, fromTop: bool): string {
    if !fromTop && (file.list == list || (file.list.Unset? && list.Queue?)) then file.last else ""
  }

  function Started(s: Sys, interval: int, list: ListName, fromTop: bool): Sys {
    if s.current.Some? then s
    else
      var l := Effective(list);
      var last := StartPosition(s.file, l, fromTop);
      s.(file := InviteState(true, Some(interval), last, l),
         loops := s.loops + [Loop(l, interval, last, [], 0, Top, false)],
         current := Some(|s.loops|))
  }

  function Cancelled(s: Sys): Sys {
    if s.current.Some? && s.current.value < |s.loops|
    then s.(loops := s.loops[s.current.value := s.loops[s.current.value].(cancelled := true)],
            current := None, cuts := s.cuts + {|s.visited|})
    else s
  }

  predicate ValidSys(s: Sys) {
    && (forall i :: 0 <= i < |s.loops| ==> ValidLoop(s.loops[i]))
    && (forall i :: 0 <= i < |s.loops| ==> s.loops[i].cancelled == (s.current != Some(i)))
    && (s.current.Some? ==> s.current.value < |s.loops|)
  }

  function Next(s: Sys, step: Step, lists: Lists): Sys
    requires ValidSys(s)
  {
    match step
    case Go(id) =>
      if id < |s.loops|
      then s.(loops := s.loops[id := LoopAfter(s.loops[id], lists)],
              file := FileAfter(s.loops[id], s.file), visited := s.visited + Visit(s.loops[id]))
      else s
    case Start(interval) => Started(s, interval, s.file.list, false)
    case StartList(interval, list, fromTop) => Started(s, interval, list, fromTop)
    case Stop => if s.current.Some? then Cancelled(s).(file := s.file.(running := false)) else s
    case SessionEnds => Cancelled(s)
    case ResumeIfWanted =>
      if s.file.running then Started(s, ResumeInterval(s.file.interval), s.file.list, false) else s
  }

  lemma StepKeepsValid(s: Sys, step: Step, lists: Lists)
    requires ValidSys(s)
    ensures ValidSys(Next(s, step, lists))
  {
    if step.Go? {
      if step.id < |s.loops| { LoopStaysValid(s.loops[step.id], lists); }
      hide LoopAfter, FileAfter, Visit;
    } else {
      hide Effective, StartPosition, ResumeInterval;
    }
  }

  lemma LoopStaysValid(l: Loop, lists: Lists)
    requires ValidLoop(l)
    ensures ValidLoop(LoopAfter(l, lists)) && LoopAfter(l, lists).cancelled == l.cancelled
  {}

  function Run(s: Sys, steps: seq<Step>, lists: Lists): (r: Sys)
    requires ValidSys(s)
    ensures ValidSys(r)
    decreases |steps|
  {
    if steps == [] then s
    else
      StepKeepsValid(s, steps[0], lists);
      Run(Next(s, steps[0], lists), steps[1..], lists)
  }

  // ---------------------------------------------------------------------------------------------
  // The controller

  /** The file of one broadcast, which outlives its sessions. */
  class StateFile {
    var state: InviteState

    constructor (state: InviteState)
      ensures this.state == state
    {
      this.state := state;
    }
  }

  /** The variables of one goroutine of run, and whether its context is done. */
  class InviteLoop {
    ghost const id: nat
    const list: ListName
    const interval: int
    var resumeAfter: string
    var xuids: seq<string>
    var next: nat
    var phase: Phase
    var cancelled: bool

    ghost function Value(): Loop
      reads this
    {
      Loop(list, interval, resumeAfter, xuids, next, phase, cancelled)
    }

    constructor (ghost id: nat, list: ListName, interval: int, resumeAfter: string)
      ensures this.id == id && Value() == Loop(list, interval, resumeAfter, [], 0, Top, false)
    {
      this.id, this.list, this.interval, this.resumeAfter := id, list, interval, resumeAfter;
      xuids, next, phase, cancelled := [], 0, Top, false;
    }
  }

  class InviteController {
    const file: StateFile
    var running: bool
    var interval: int
    var list: ListName
    var stop: InviteLoop?            // whom the cancel function cancels
    ghost var loops: seq<InviteLoop> // of this session and the ones before
    ghost var visited: seq<string>
    ghost var cuts: set<nat>

    ghost predicate Valid()
      reads this, file, loops
    {
      && (forall i :: 0 <= i < |loops| ==> loops[i].id == i && ValidLoop(loops[i].Value()))
      && (running <==> stop != null)
      && (stop != null ==> stop.id < |loops| && loops[stop.id] == stop)
      && (forall i :: 0 <= i < |loops| ==> loops[i].cancelled == (loops[i] != stop))
    }

    ghost function View(): Sys
      reads this, file, loops
    {
      Sys(file.state, Values(loops), if stop != null then Some(stop.id) else None, visited, cuts)
    }

    /** The controller of a new session on the same file. */
    constructor (file: StateFile, ghost loops: seq<InviteLoop>, ghost visited: seq<string>, ghost cuts: set<nat>)
      requires forall i :: 0 <= i < |loops| ==> loops[i].id == i && ValidLoop(loops[i].Value()) && loops[i].cancelled
      ensures Valid() && !running && this.file == file && this.loops == loops
      ensures View() == Sys(file.state, Values(loops), None, visited, cuts)
    {
      this.file, running, interval, list, stop := file, false, 0, Unset, null;
      this.loops, this.visited, this.cuts := loops, visited, cuts;
    }

    method StartList(interval: int, list: ListName, fromTop: bool)
      requires Valid()
      modifies this, file
      ensures Valid() && ValidSys(old(View()))
      ensures View() == Next(old(View()), Step.StartList(interval, list, fromTop), NO_LISTS)
      ensures old(running) ==> unchanged(this) && unchanged(file)
      ensures running && (!old(running) ==> this.interval == interval && this.list == file.state.list)
      ensures !old(running) ==>
        var l := if list == Accepted then Accepted else Queue;
        var goesOn := old(file.state).list == l || (old(file.state).list == Unset && l == Queue);
        var last := if goesOn && !fromTop then old(file.state).last else "";
        && file.state == InviteState(true, Some(interval), last, l)
        && stop.Value() == Loop(l, interval, last, [], 0, Top, false)
    {
      ValuesAreValid();
      hide LoopAfter, FileAfter, Visit, Cancelled, ResumeInterval, ValidLoop;
      if running {
        return;
      }
      var l := if list != Accepted then Queue else list;
      var last := "";
      if !fromTop && (file.state.list == l || (file.state.list == Unset && l == Queue)) {
        last := file.state.last;
      }
      file.state := InviteState(true, Some(interval), last, l);
      Launch(interval, l, last);
    }

    method Launch(interval: int, list: ListName, last: string)
      requires Valid() && !running
      modifies this
      ensures Valid() && running && stop.id == |old(loops)|
      ensures Values(loops) == old(Values(loops)) + [Loop(list, interval, last, [], 0, Top, false)]
      ensures this.interval == interval && this.list == list && unchanged(`visited) && unchanged(`cuts)
      ensures stop.Value() == Loop(list, interval, last, [], 0, Top, false)
    {
      var l := new InviteLoop(|loops|, list, interval, last);
      stop := l;
      running := true;
      this.interval := interval;
      this.list := list;
      loops := loops + [l];
    }

    method Start(interval: int, fromTop: bool)
      requires Valid()
      modifies this, file
      ensures Valid() && ValidSys(old(View()))
      ensures View() == Next(old(View()), Step.StartList(interval, old(file.state.list), fromTop), NO_LISTS)
      ensures old(running) ==> unchanged(this) && unchanged(file)
      ensures !old(running) ==> this.interval == interval && stop != null && stop.interval == interval
      ensures !old(running) && !fromTop ==> file.state.last == old(file.state).last == stop.resumeAfter
    {
      StartList(interval, file.state.list, fromTop);
    }

    method ResumeIfWanted()
      requires Valid()
      modifies this, file
      ensures Valid() && ValidSys(old(View())) && View() == Next(old(View()), Step.ResumeIfWanted, NO_LISTS)
      ensures old(running) || !old(file.state).running ==> unchanged(this) && unchanged(file)
      ensures !old(running) && old(file.state).running ==>
        var saved := old(file.state).interval;
        && running && stop != null && stop.resumeAfter == file.state.last == old(file.state).last
        && stop.interval == interval == if saved.Some? && saved.value >= 1000 then saved.value else 10000
    {
      ValuesAreValid();
      if !file.state.running {
        return;
      }
      var interval := DEFAULT_INTERVAL;
      if file.state.interval.Some? && file.state.interval.value >= MIN_INTERVAL {
        interval := file.state.interval.value;
      }
      Start(interval, false);
    }

    method Stop()
      requires Valid()
      modifies this, file, loops
      ensures Valid() && ValidSys(old(View())) && View() == Next(old(View()), Step.Stop, NO_LISTS)
      ensures !running && loops == old(loops)
    {
      ValuesAreValid();
      hide LoopAfter, FileAfter, Visit, Started, ResumeInterval;
      if !running {
        return;
      }
      Cancel();
      stop := null;
      running := false;
      cuts := cuts + {|visited|};
      file.state := file.state.(running := false);
    }

    /** The session's context is done, and with it the loop's; the next session has a controller of
        its own. */
    method SessionEnds() returns (next: InviteController)
      requires Valid()
      modifies loops
      ensures ValidSys(old(View())) && next.Valid() && !next.running && next.file == file
      ensures next.View() == Next(old(View()), Step.SessionEnds, NO_LISTS)
    {
      ValuesAreValid();
      if stop != null {
        Cancel();
      }
      next := new InviteController(file, loops, visited, if stop != null then cuts + {|visited|} else cuts);
    }

    method Cancel()
      requires Valid() && stop != null
      modifies stop`cancelled
      ensures stop.cancelled
      ensures Values(loops) == old(Values(loops))[stop.id := old(stop.Value()).(cancelled := true)]
      ensures forall i :: 0 <= i < |loops| ==> ValidLoop(loops[i].Value()) && loops[i].cancelled
    {
      stop.cancelled := true;
    }

    method RecordProgress(l: InviteLoop, last: string)
      modifies file
      ensures file.state == Recorded(old(file.state), l.Value(), last)
    {
      if l.cancelled {
        return;
      }
      file.state := InviteState(true, Some(l.interval), last, l.list);
    }

    /** run up to the next point where another goroutine may come in between. */
    method Turn(l: InviteLoop, lists: Lists)
      requires Valid() && l.id < |loops| && loops[l.id] == l
      modifies this`visited, file, l
      ensures Valid() && ValidSys(old(View())) && View() == Next(old(View()), Go(l.id), lists)
    {
      ValuesAreValid();
      Advance(l, lists);
      assert Values(loops) == old(Values(loops))[l.id := l.Value()];
      StepKeepsValid(old(View()), Go(l.id), lists);
    }

    method Advance(l: InviteLoop, lists: Lists)
      requires ValidLoop(l.Value())
      modifies this`visited, file, l
      ensures l.Value() == LoopAfter(old(l.Value()), lists)
      ensures file.state == FileAfter(old(l.Value()), old(file.state))
      ensures visited == old(visited) + Visit(old(l.Value()))
    {
      match l.phase {
        case Top =>
          var xs := lists.Of(l.list);
          if |xs| > 0 {
            var from := FindResumeIndex(xs, l.resumeAfter);
            l.resumeAfter, l.xuids, l.next := "", xs, from;
            l.phase := if from < |xs| then Waiting else LapEnd;
          }
        case Waiting =>
          if !l.cancelled {
            visited := visited + [l.xuids[l.next]];
          }
          l.phase := Handled;
        case Handled =>
          RecordProgress(l, l.xuids[l.next]);
          l.next := l.next + 1;
          l.phase := if l.next < |l.xuids| then Waiting else LapEnd;
        case LapEnd =>
          RecordProgress(l, "");
          l.phase := Top;
      }
    }

    lemma ValuesAreValid()
      requires Valid()
      ensures ValidSys(View())
    {}
  }

  const NO_LISTS := Lists([], [])

  ghost function Values(loops: seq<InviteLoop>): (vs: seq<Loop>)
    reads loops
    ensures |vs| == |loops|
    ensures forall i :: 0 <= i < |loops| ==> vs[i] == loops[i].Value()
  {
    seq(|loops|, i requires 0 <= i < |loops| reads loops => loops[i].Value())
  }

  // ---------------------------------------------------------------------------------------------
  // Stopping and resuming

  /** Stop's word is final: until a start, nothing a cancelled loop still does changes the file, which
      says not running and keeps the position. */
  lemma {:induction false} StopSticks(s: Sys, steps: seq<Step>, lists: Lists)
    requires ValidSys(s) && s.current == None && !s.file.running
    requires forall i :: 0 <= i < |steps| ==> !steps[i].Start? && !steps[i].StartList?
    ensures var r := Run(s, steps, lists); r.file == s.file && r.visited == s.visited && r.current == None
    decreases |steps|
  {
    if steps != [] {
      StepKeepsValid(s, steps[0], lists);
      assert forall i :: 0 <= i < |steps[1..]| ==> steps[1..][i] == steps[i + 1];
      StopSticks(Next(s, steps[0], lists), steps[1..], lists);
    }
  }

  lemma StopStops(s: Sys, lists: Lists)
    requires ValidSys(s) && s.current.Some?
    ensures var r := Next(s, Stop, lists);
      r.current == None && r.file == s.file.(running := false) && r.visited == s.visited
  {}

  /** So, over any run: after a stop of a running loop, and whatever loops still do, other sessions end or
      controllers resume, the file says not running, with the list and the position of the stop, and
      nobody is invited, until somebody starts a loop again. */
  lemma StoppedUntilStart(start: Sys, before: seq<Step>, after: seq<Step>, lists: Lists)
    requires ValidSys(start) && Run(start, before, lists).current.Some?
    requires forall i :: 0 <= i < |after| ==> !after[i].Start? && !after[i].StartList?
    ensures var s := Run(start, before, lists);
      var r := Run(Next(s, Stop, lists), after, lists);
      && r.file == s.file.(running := false) && r.visited == s.visited && r.current == None
  {
    var s := Run(start, before, lists);
    StepKeepsValid(s, Stop, lists);
    StopStops(s, lists);
    StopSticks(Next(s, Stop, lists), after, lists);
  }

  /** While a loop runs, the file says so. */
  predicate Wanted(s: Sys) {
    s.current.Some? ==> s.file.running
  }

  lemma StepKeepsWanted(s: Sys, step: Step, lists: Lists)
    requires ValidSys(s) && Wanted(s)
    ensures Wanted(Next(s, step, lists))
  {
    StepKeepsValid(s, step, lists);
  }

  lemma {:induction false} RunKeepsWanted(s: Sys, steps: seq<Step>, lists: Lists)
    requires ValidSys(s) && Wanted(s)
    ensures Wanted(Run(s, steps, lists))
    decreases |steps|
  {
    if steps != [] {
      StepKeepsValid(s, steps[0], lists);
      StepKeepsWanted(s, steps[0], lists);
      RunKeepsWanted(Next(s, steps[0], lists), steps[1..], lists);
    }
  }

  function Turns(id: nat, n: nat): seq<Step> {
    if n == 0 then [] else [Go(id)] + Turns(id, n - 1)
  }

  lemma OneTurn(s: Sys, id: nat, n: nat, lists: Lists)
    requires ValidSys(s) && n > 0
    ensures ValidSys(Next(s, Go(id), lists))
    ensures Run(s, Turns(id, n), lists) == Run(Next(s, Go(id), lists), Turns(id, n - 1), lists)
  {
    StepKeepsValid(s, Go(id), lists);
    assert Turns(id, n)[1..] == Turns(id, n - 1);
  }

  /** The running loop id, otherwise as l, is about to handle those on its lap from place at on. */
  predicate At(s: Sys, id: nat, l: Loop, at: nat) {
    && s.current == Some(id) && id < |s.loops| && at <= |l.xuids|
    && s.loops[id] == l.(next := at, phase := if at < |l.xuids| then Waiting else LapEnd)
  }

  lemma TwoTurns(s: Sys, id: nat, l: Loop, at: nat, lists: Lists)
    requires ValidSys(s) && At(s, id, l, at) && at < |l.xuids|
    ensures ValidSys(Next(s, Go(id), lists))
    ensures var r := Next(Next(s, Go(id), lists), Go(id), lists);
      && ValidSys(r) && At(r, id, l, at + 1) && r.visited == s.visited + [l.xuids[at]]
      && r.file == InviteState(true, Some(l.interval), l.xuids[at], l.list)
  {
    StepKeepsValid(s, Go(id), lists);
    StepKeepsValid(Next(s, Go(id), lists), Go(id), lists);
    assert s.visited + [l.xuids[at]] + [] == s.visited + [l.xuids[at]];
  }

  lemma {:induction false} TurnsHandle(s: Sys, id: nat, l: Loop, at: nat, k: nat, lists: Lists)
    requires ValidSys(s) && At(s, id, l, at) && at + k <= |l.xuids|
    ensures var r := Run(s, Turns(id, 2 * k), lists);
      && At(r, id, l, at + k) && r.visited == s.visited + l.xuids[at..at + k]
      && (k > 0 ==> r.file == InviteState(true, Some(l.interval), l.xuids[at + k - 1], l.list))
    decreases k
  {
    hide At, Next, ValidSys;
    if k > 0 {
      TwoTurns(s, id, l, at, lists);
      var t := Next(Next(s, Go(id), lists), Go(id), lists);
      OneTurn(s, id, 2 * k, lists);
      OneTurn(Next(s, Go(id), lists), id, 2 * k - 1, lists);
      TurnsHandle(t, id, l, at + 1, k - 1, lists);
      assert 2 * k - 2 == 2 * (k - 1);
      assert s.visited + [l.xuids[at]] + l.xuids[at + 1..at + k] == s.visited + l.xuids[at..at + k];
    } else {
      assert s.visited + l.xuids[at..at] == s.visited;
    }
  }

  /** The running loop id begins a lap of the list xs with the player at from: the one behind whom it is to resume
      after, or the first if that one is not on the list. */
  predicate Begins(s: Sys, id: nat, lists: Lists, xs: seq<string>, from: nat) {
    && s.current == Some(id) && id < |s.loops|
    && var l := s.loops[id];
       && l.phase.Top? && xs == (if l.list.Accepted? then lists.accepted else lists.queue)
       && NoDuplicates(xs) && xs != [] && from <= |xs|
       && if from == 0 then l.resumeAfter == "" || l.resumeAfter !in xs
          else l.resumeAfter != "" && xs[from - 1] == l.resumeAfter
  }

  lemma LapBegins(s: Sys, id: nat, lists: Lists, xs: seq<string>, from: nat)
    requires ValidSys(s) && Begins(s, id, lists, xs, from)
    ensures var r := Next(s, Go(id), lists);
      At(r, id, s.loops[id].(resumeAfter := "", xuids := xs), from) && r.visited == s.visited
  {
    var i := ResumeIndex(xs, s.loops[id].resumeAfter);
    assert i > 0 && from > 0 ==> xs[i - 1] == xs[from - 1];
    assert s.visited + [] == s.visited;
  }

  /** A running loop gets on: one turn and two for each handle the next k players of the lap in order, and the file
      says whom it handled last. */
  lemma LoopMakesProgress(s: Sys, id: nat, lists: Lists, xs: seq<string>, from: nat, k: nat)
    requires ValidSys(s) && Begins(s, id, lists, xs, from) && from + k <= |xs|
    ensures var r, l := Run(s, Turns(id, 1 + 2 * k), lists), s.loops[id];
      && r.visited == s.visited + xs[from..from + k]
      && At(r, id, l.(resumeAfter := "", xuids := xs), from + k)
      && (k > 0 ==> r.file == InviteState(true, Some(l.interval), xs[from + k - 1], l.list))
  {
    LapBegins(s, id, lists, xs, from);
    OneTurn(s, id, 1 + 2 * k, lists);
    hide At, Next, ValidSys;
    TurnsHandle(Next(s, Go(id), lists), id, s.loops[id].(resumeAfter := "", xuids := xs), from, k, lists);
  }

  /** At the end of the lap the file forgets the place, and the loop begins at the top of the list, read anew. */
  lemma LapEnds(s: Sys, id: nat, l: Loop, lists: Lists)
    requires ValidSys(s) && At(s, id, l, |l.xuids|)
    ensures var r := Next(s, Go(id), lists);
      && r.current == Some(id) && r.visited == s.visited
      && r.file == InviteState(true, Some(l.interval), "", l.list)
      && id < |r.loops| && r.loops[id] == l.(next := |l.xuids|, phase := Top)
  {
    assert s.visited + [] == s.visited;
  }

  lemma {:induction false} RunMore(s: Sys, id: nat, n: nat, lists: Lists)
    requires ValidSys(s)
    ensures Run(s, Turns(id, n + 1), lists) == Next(Run(s, Turns(id, n), lists), Go(id), lists)
    decreases n
  {
    hide Next, ValidSys;
    OneTurn(s, id, n + 1, lists);
    if n > 0 {
      OneTurn(s, id, n, lists);
      RunMore(Next(s, Go(id), lists), id, n - 1, lists);
    }
  }

  /** So the list is read to its end, and then from its top again. */
  lemma LapIsRead(s: Sys, id: nat, lists: Lists, xs: seq<string>, from: nat)
    requires ValidSys(s) && Begins(s, id, lists, xs, from)
    ensures var r, l := Run(s, Turns(id, 2 + 2 * (|xs| - from)), lists), s.loops[id];
      && r.visited == s.visited + xs[from..]
      && r.file == InviteState(true, Some(l.interval), "", l.list)
      && Begins(r, id, lists, xs, 0)
  {
    var k := |xs| - from;
    var l := s.loops[id].(resumeAfter := "", xuids := xs);
    hide Next, ValidSys, At;
    LoopMakesProgress(s, id, lists, xs, from, k);
    RunMore(s, id, 1 + 2 * k, lists);
    LapEnds(Run(s, Turns(id, 1 + 2 * k), lists), id, l, lists);
    assert xs[from..from + k] == xs[from..];
  }

  predicate NothingStarted(steps: seq<Step>) {
    forall i :: 0 <= i < |steps| ==> !steps[i].Start? && !steps[i].StartList? && !steps[i].ResumeIfWanted?
  }

  /** Without a running loop, neither the loops that are left nor stops or session ends change the
      file or invite anybody. */
  lemma {:induction false} NobodyLeftToWrite(s: Sys, steps: seq<Step>, lists: Lists)
    requires ValidSys(s) && s.current == None && NothingStarted(steps)
    ensures var r := Run(s, steps, lists); r.file == s.file && r.visited == s.visited && r.current == None
    decreases |steps|
  {
    if steps != [] {
      StepKeepsValid(s, steps[0], lists);
      assert forall i :: 0 <= i < |steps[1..]| ==> steps[1..][i] == steps[i + 1];
      NobodyLeftToWrite(Next(s, steps[0], lists), steps[1..], lists);
    }
  }

  /** Over any run: a session that ends while the loop runs leaves it wanted, whatever its cancelled loop
      and those of sessions before still do. The next controller takes it up on the same list and right
      after the player recorded when the session ended. */
  lemma SessionEndResumes(start: Sys, before: seq<Step>, between: seq<Step>, lists: Lists)
    requires ValidSys(start) && start.current == None && NothingStarted(between)
    requires Run(start, before, lists).current.Some?
    ensures var s := Run(start, before, lists);
      var r := Run(Next(s, SessionEnds, lists), between, lists);
      && r.file == s.file && s.file.running && r.visited == s.visited
      && (var t := Next(r, ResumeIfWanted, lists); var list := Effective(s.file.list);
          && t.file == InviteState(true, Some(ResumeInterval(s.file.interval)), s.file.last, list)
          && t.current == Some(|r.loops|) && |t.loops| == |r.loops| + 1
          && t.loops[|r.loops|] == Loop(list, ResumeInterval(s.file.interval), s.file.last, [], 0, Top, false)
          && (lists.Of(list) != [] ==> Upcoming(t, lists.Of(list)) == Place(lists.Of(list), s.file.last)))
  {
    RunKeepsWanted(start, before, lists);
    var s := Run(start, before, lists);
    StepKeepsValid(s, SessionEnds, lists);
    NobodyLeftToWrite(Next(s, SessionEnds, lists), between, lists);
    var r := Run(Next(s, SessionEnds, lists), between, lists);
    StepKeepsValid(r, ResumeIfWanted, lists);
  }

  // ---------------------------------------------------------------------------------------------
  // Laps

  /** A list as readXUIDList gives it, with somebody on it. */
  predicate Playable(xs: seq<string>) {
    xs != [] && NoDuplicates(xs) && forall i :: 0 <= i < |xs| ==> xs[i] != ""
  }

  /** The place after k on a list of n, the first after the last. */
  function Round(k: nat, n: nat): (r: nat)
    requires k < n
    ensures r < n
  {
    if k + 1 == n then 0 else k + 1
  }

  /** The place i further on. */
  function Around(first: nat, i: nat, n: nat): (r: nat)
    requires first < n
    ensures r < n
  {
    if i == 0 then first else Round(Around(first, i - 1, n), n)
  }

  /** The place in the list of whoever comes after last. */
  function Place(xs: seq<string>, last: string): (k: nat)
    requires xs != []
    ensures k < |xs|
  {
    var i := ResumeIndex(xs, last);
    if i == |xs| then 0 else i
  }

  lemma PlaceAfter(xs: seq<string>, k: nat)
    requires Playable(xs) && k < |xs|
    ensures ResumeIndex(xs, xs[k]) == k + 1 && Place(xs, xs[k]) == Round(k, |xs|)
  {
    var i := ResumeIndex(xs, xs[k]);
    assert i > 0 && xs[i - 1] == xs[k];
    assert i - 1 == k;
  }

  /** Steps that neither restart the lap nor change the list. */
  predicate Continues(s: Sys, step: Step) {
    step.StartList? ==> !step.fromTop && Effective(step.list) == Effective(s.file.list)
  }

  predicate AllContinue(s: Sys, steps: seq<Step>, lists: Lists)
    requires ValidSys(s)
    decreases |steps|
  {
    steps == [] || (
      StepKeepsValid(s, steps[0], lists);
      Continues(s, steps[0]) && AllContinue(Next(s, steps[0], lists), steps[1..], lists))
  }

  /** The place of the player a loop comes to next. */
  function LoopUpcoming(l: Loop, xs: seq<string>): (k: nat)
    requires xs != []
    ensures k < |xs|
  {
    match l.phase
    case Top => Place(xs, l.resumeAfter)
    case Waiting => if l.next < |xs| then l.next else 0
    case Handled => if l.next + 1 < |xs| then l.next + 1 else 0
    case LapEnd => 0
  }

  function Upcoming(s: Sys, xs: seq<string>): (k: nat)
    requires xs != [] && ValidSys(s)
    ensures k < |xs|
  {
    if s.current.Some? then LoopUpcoming(s.loops[s.current.value], xs) else Place(xs, s.file.last)
  }

  /** The loop and the file agree on the place in the list; while a player is handled but not recorded,
      the file still points at them. */
  ghost predicate LoopInStep(l: Loop, file: InviteState, visited: seq<string>, xs: seq<string>)
    requires xs != [] && ValidLoop(l)
  {
    && l.list == Effective(file.list)
    && (!l.phase.Top? ==> l.xuids == xs && l.resumeAfter == "")
    && Place(xs, file.last) == (if l.phase.Handled? then l.next else LoopUpcoming(l, xs))
    && (l.phase.Handled? ==> visited != [] && visited[|visited| - 1] == xs[l.next])
  }

  /** Each player handled is the one after the one before, or the same again right after a cut. */
  ghost predicate Follows(visited: seq<string>, cuts: set<nat>, xs: seq<string>)
    requires xs != []
  {
    forall i :: 0 < i < |visited| ==>
      visited[i] == xs[Place(xs, visited[i - 1])] || (visited[i] == visited[i - 1] && i in cuts)
  }

  /** The players handled so far began at first, and next continues them. */
  ghost predicate Tracked(visited: seq<string>, cuts: set<nat>, xs: seq<string>, first: nat, next: nat)
    requires xs != [] && first < |xs| && next < |xs|
  {
    Follows(visited, cuts, xs)
    && if visited == [] then next == first
       else
         var last := visited[|visited| - 1];
         visited[0] == xs[first] && (next == Place(xs, last) || (xs[next] == last && |visited| in cuts))
  }

  ghost predicate OnTrack(s: Sys, xs: seq<string>, first: nat)
    requires Playable(xs) && ValidSys(s) && first < |xs|
  {
    && (s.current.Some? ==> LoopInStep(s.loops[s.current.value], s.file, s.visited, xs))
    && Tracked(s.visited, s.cuts, xs, first, Upcoming(s, xs))
  }

  lemma TrackVisit(visited: seq<string>, cuts: set<nat>, xs: seq<string>, first: nat, next: nat)
    requires Playable(xs) && first < |xs| && next < |xs| && Tracked(visited, cuts, xs, first, next)
    ensures Tracked(visited + [xs[next]], cuts, xs, first, Round(next, |xs|))
  {
    PlaceAfter(xs, next);
    var v := visited + [xs[next]];
    forall i | 0 < i < |v| ensures v[i] == xs[Place(xs, v[i - 1])] || (v[i] == v[i - 1] && i in cuts) {
      if i < |visited| {
        assert v[i] == visited[i] && v[i - 1] == visited[i - 1];
      }
    }
  }

  lemma TrackCut(visited: seq<string>, cuts: set<nat>, xs: seq<string>, first: nat, next: nat, now: nat)
    requires Playable(xs) && first < |xs| && next < |xs| && Tracked(visited, cuts, xs, first, next)
    requires now < |xs| && (now == next || (visited != [] && xs[now] == visited[|visited| - 1]))
    ensures Tracked(visited, cuts + {|visited|}, xs, first, now)
  {}

  /** One step of the running loop: what it does to the file and to the players handled. */
  lemma TurnKeepsTrack(l: Loop, file: InviteState, visited: seq<string>, cuts: set<nat>, lists: Lists, first: nat)
    requires ValidLoop(l) && !l.cancelled
    requires Playable(lists.Of(l.list)) && first < |lists.Of(l.list)|
    requires LoopInStep(l, file, visited, lists.Of(l.list))
    requires Tracked(visited, cuts, lists.Of(l.list), first, LoopUpcoming(l, lists.Of(l.list)))
    ensures var r, xs := LoopAfter(l, lists), lists.Of(l.list);
      && ValidLoop(r) && Effective(FileAfter(l, file).list) == Effective(file.list)
      && LoopInStep(r, FileAfter(l, file), visited + Visit(l), xs)
      && Tracked(visited + Visit(l), cuts, xs, first, LoopUpcoming(r, xs))
  {
    var xs := lists.Of(l.list);
    match l.phase
    case Top => assert visited + Visit(l) == visited;
    case Waiting => TrackVisit(visited, cuts, xs, first, l.next);
    case Handled =>
      PlaceAfter(xs, l.next);
      assert visited + Visit(l) == visited;
    case LapEnd => assert visited + Visit(l) == visited;
  }

  lemma GoKeepsTrack(s: Sys, id: nat, lists: Lists, first: nat)
    requires ValidSys(s) && id < |s.loops|
    requires var xs := lists.Of(Effective(s.file.list)); Playable(xs) && first < |xs| && OnTrack(s, xs, first)
    ensures ValidSys(Next(s, Go(id), lists))
    ensures Effective(Next(s, Go(id), lists).file.list) == Effective(s.file.list)
    ensures OnTrack(Next(s, Go(id), lists), lists.Of(Effective(s.file.list)), first)
  {
    StepKeepsValid(s, Go(id), lists);
    var xs := lists.Of(Effective(s.file.list));
    var l := s.loops[id];
    var r := Next(s, Go(id), lists);
    if s.current == Some(id) {
      TurnKeepsTrack(l, s.file, s.visited, s.cuts, lists, first);
    } else {
      assert r.visited == s.visited && r.file == s.file;
      assert s.current.Some? ==> r.loops[s.current.value] == s.loops[s.current.value];
    }
  }

  lemma CutKeepsTrack(s: Sys, xs: seq<string>, first: nat)
    requires Playable(xs) && first < |xs| && ValidSys(s) && OnTrack(s, xs, first)
    ensures ValidSys(Cancelled(s)) && OnTrack(Cancelled(s), xs, first)
  {
    if s.current.Some? {
      TrackCut(s.visited, s.cuts, xs, first, Upcoming(s, xs), Place(xs, s.file.last));
    }
  }

  lemma StartKeepsTrack(s: Sys, interval: int, list: ListName, xs: seq<string>, first: nat)
    requires Playable(xs) && first < |xs| && ValidSys(s) && OnTrack(s, xs, first)
    requires Effective(list) == Effective(s.file.list)
    ensures var r := Started(s, interval, list, false);
      ValidSys(r) && OnTrack(r, xs, first) && Effective(r.file.list) == Effective(s.file.list)
  {}

  lemma StepKeepsTrack(s: Sys, step: Step, lists: Lists, first: nat)
    requires ValidSys(s) && Continues(s, step)
    requires var xs := lists.Of(Effective(s.file.list)); Playable(xs) && first < |xs| && OnTrack(s, xs, first)
    ensures var r := Next(s, step, lists);
      && ValidSys(r) && Effective(r.file.list) == Effective(s.file.list)
      && OnTrack(r, lists.Of(Effective(s.file.list)), first)
  {
    var xs := lists.Of(Effective(s.file.list));
    match step
    case Go(id) => if id < |s.loops| { GoKeepsTrack(s, id, lists, first); }
    case Start(interval) => StartKeepsTrack(s, interval, s.file.list, xs, first);
    case StartList(interval, list, _) => StartKeepsTrack(s, interval, list, xs, first);
    case Stop => CutKeepsTrack(s, xs, first);
    case SessionEnds => CutKeepsTrack(s, xs, first);
    case ResumeIfWanted => StartKeepsTrack(s, ResumeInterval(s.file.interval), s.file.list, xs, first);
  }

  lemma {:induction false} RunKeepsTrack(s: Sys, steps: seq<Step>, lists: Lists, first: nat)
    requires ValidSys(s) && AllContinue(s, steps, lists)
    requires var xs := lists.Of(Effective(s.file.list)); Playable(xs) && first < |xs| && OnTrack(s, xs, first)
    ensures OnTrack(Run(s, steps, lists), lists.Of(Effective(s.file.list)), first)
    decreases |steps|
  {
    if steps != [] {
      StepKeepsTrack(s, steps[0], lists, first);
      RunKeepsTrack(Next(s, steps[0], lists), steps[1..], lists, first);
    }
  }

  /** The players handled, without those handled again right after a cut. */
  function Distinct(visited: seq<string>, cuts: set<nat>): seq<string> {
    if visited == [] then []
    else
      var n := |visited| - 1;
      var before := Distinct(visited[..n], cuts);
      if n > 0 && n in cuts && visited[n] == visited[n - 1] then before else before + [visited[n]]
  }

  /** d is xs read round and round from first on. */
  ghost predicate Cyclic(d: seq<string>, xs: seq<string>, first: nat)
    requires first < |xs|
  {
    forall i :: 0 <= i < |d| ==> d[i] == xs[Around(first, i, |xs|)]
  }

  lemma CyclicNext(d: seq<string>, xs: seq<string>, first: nat, x: string)
    requires Playable(xs) && first < |xs| && Cyclic(d, xs, first)
    requires x == if d == [] then xs[first] else xs[Place(xs, d[|d| - 1])]
    ensures Cyclic(d + [x], xs, first)
  {
    if d != [] {
      PlaceAfter(xs, Around(first, |d| - 1, |xs|));
    }
  }

  lemma {:induction false} AroundWithin(first: nat, i: nat, n: nat)
    requires first < n && i < n
    ensures Around(first, i, n) == if first + i < n then first + i else first + i - n
  {
    if i > 0 {
      AroundWithin(first, i - 1, n);
    }
  }

  lemma {:induction false} AroundAgain(first: nat, j: nat, i: nat, n: nat)
    requires first < n
    ensures Around(first, j + i, n) == Around(Around(first, j, n), i, n)
  {
    if i > 0 {
      AroundAgain(first, j, i - 1, n);
    }
  }

  /** Any as many in a row as the list is long include everybody on it. */
  lemma EverybodyComesUp(d: seq<string>, xs: seq<string>, first: nat, from: nat, k: nat)
    requires first < |xs| && Cyclic(d, xs, first) && from + |xs| <= |d| && k < |xs|
    ensures xs[k] in d[from..from + |xs|]
  {
    var n := |xs|;
    var start := Around(first, from, n);
    var i := if start <= k then k - start else k + n - start;
    AroundAgain(first, from, i, n);
    AroundWithin(start, i, n);
    assert d[from..from + n][i] == xs[k];
  }

  lemma {:induction false} DistinctIsCyclic(visited: seq<string>, cuts: set<nat>, xs: seq<string>, first: nat)
    requires Playable(xs) && first < |xs| && Follows(visited, cuts, xs)
    requires visited != [] ==> visited[0] == xs[first]
    ensures var d := Distinct(visited, cuts);
      && Cyclic(d, xs, first) && (visited == [] <==> d == [])
      && (visited != [] ==> d[|d| - 1] == visited[|visited| - 1])
    decreases |visited|
  {
    if visited != [] {
      var n := |visited| - 1;
      var before := visited[..n];
      FollowsUpTo(visited, cuts, xs, n);
      DistinctIsCyclic(before, cuts, xs, first);
      var d := Distinct(before, cuts);
      if n == 0 {
        assert d == [];
        CyclicNext(d, xs, first, visited[n]);
      } else if !(n in cuts && visited[n] == visited[n - 1]) {
        assert before[n - 1] == visited[n - 1];
        CyclicNext(d, xs, first, visited[n]);
      }
    }
  }

  lemma FollowsUpTo(visited: seq<string>, cuts: set<nat>, xs: seq<string>, n: nat)
    requires xs != [] && n <= |visited| && Follows(visited, cuts, xs)
    ensures Follows(visited[..n], cuts, xs)
  {
    var before := visited[..n];
    forall i | 0 < i < n
      ensures before[i] == xs[Place(xs, before[i - 1])] || (before[i] == before[i - 1] && i in cuts)
    {
      assert before[i] == visited[i] && before[i - 1] == visited[i - 1];
    }
  }

  /** For an unchanged list, over any run of steps, stops, session ends, resumes and starts that do not
      restart the lap: apart from players handled again right after a cut, the players handled are
      the list read round and round from the recorded place on, nobody left out. */
  lemma NobodySkipped(s: Sys, steps: seq<Step>, lists: Lists)
    requires ValidSys(s) && s.current == None && s.visited == [] && AllContinue(s, steps, lists)
    requires Playable(lists.Of(Effective(s.file.list)))
    ensures var xs := lists.Of(Effective(s.file.list)); var r := Run(s, steps, lists);
      Cyclic(Distinct(r.visited, r.cuts), xs, Place(xs, s.file.last))
  {
    var xs := lists.Of(Effective(s.file.list));
    var first := Place(xs, s.file.last);
    RunKeepsTrack(s, steps, lists, first);
    var r := Run(s, steps, lists);
    DistinctIsCyclic(r.visited, r.cuts, xs, first);
  }
}
