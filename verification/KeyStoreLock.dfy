/** The lock protocol of the project-key cache (core/src/keystore.ts): any number of calls, each a
    process of its own, interleaved at the file system's atomic steps, with crashes anywhere. */
module KeyStoreLock {
  import opened Common
  import opened KeyStore

  datatype Pc =
    | Trying(tries: nat)
    | Locked                                             // the lock directory was made
    | Loaded(store: KeyStore, at: string, blind: bool)                // the file was read, at that time
    | Drafted(content: Content, at: string, now: string, blind: bool) // the store is edited
    | Saved(name: string, at: string, now: string, blind: bool)       // the temporary file is written
    | Renamed                                            // the temporary file has become the file
    | Leaving(committed: bool, ok: bool)                 // in the `finally` that removes the lock
    | Returned(committed: bool, ok: bool)
    | Crashed(committed: bool)

  datatype Call = Call(op: Op, pc: Pc)

  /** One committed call: whose, the times it read the clock, and whether it was blind: its read of
      the file failed, which the loader takes for an empty store. */
  datatype Commit = Commit(call: nat, op: Op, at: string, now: string, blind: bool)

  /** `log`, `order` and `dropped` are history: the commits, the calls that made the lock directory,
      and the calls that left it behind. */
  datatype State = State(
    file: Content,
    locked: bool,
    temp: map<string, Content>,
    calls: seq<Call>,
    log: seq<Commit>,
    order: seq<nat>,
    dropped: set<nat>)

  datatype Action =
    | Begin(op: Op)
    | Mkdir(call: nat)
    | LockError(call: nat)            // mkdir fails for another reason than the lock being there
    | Read(call: nat, now: string, failed: bool)
    | Edit(call: nat, now: string)
    | WriteTemp(call: nat, name: string)
    | Rename(call: nat)
    | Chmod(call: nat, ok: bool)
    | Throw(call: nat)                // the locked section fails before the rename
    | Rmdir(call: nat, removed: bool) // best effort: it may fail
    | Crash(call: nat)

  function Start(c: Content): State {
    State(c, false, map[], [], [], [], {})
  }

  /** The calls between making the lock directory and removing it. */
  predicate Holds(pc: Pc) {
    pc.Locked? || pc.Loaded? || pc.Drafted? || pc.Saved? || pc.Renamed? || pc.Leaving?
  }

  predicate Committed(pc: Pc) {
    match pc
    case Renamed => true
    case Leaving(committed, _) => committed
    case Returned(committed, _) => committed
    case Crashed(committed) => committed
    case _ => false
  }

  // ---------------------------------------------------------------- steps

  function Move(s: State, p: nat, pc: Pc): State
    requires p < |s.calls|
  {
    s.(calls := s.calls[p := s.calls[p].(pc := pc)])
  }

  function DoMkdir(s: State, p: nat): Option<State>
    requires p < |s.calls|
  {
    if !s.calls[p].pc.Trying? then None
    else if !s.locked then Some(Move(s, p, Locked).(locked := true, order := s.order + [p]))
    else
      var tries := s.calls[p].pc.tries + 1;
      Some(Move(s, p, if tries < RETRIES then Trying(tries) else Returned(false, false)))
  }

  /** What a read shows of the file; the loader catches a failure and starts from nothing. */
  function Seen(file: Content, blind: bool): Content {
    if blind then Missing else file
  }

  /** What the file holds after a locked section that began at `file`. */
  function After(op: Op, blind: bool, file: Content, at: string, now: string): Content {
    var e := Edited(op, Load(Seen(file, blind), at), now);
    if e.None? then file else Written(e.value)
  }

  /** An update of a project that is not there ends here: it takes effect without a write. */
  function DoRead(s: State, p: nat, now: string, failed: bool): Option<State>
    requires p < |s.calls|
  {
    if s.calls[p].pc != Locked then None
    else
      var store, op := Load(Seen(s.file, failed), now), s.calls[p].op;
      if op.Update? && op.id !in store.projects then
        Some(Move(s, p, Leaving(true, true)).(log := s.log + [Commit(p, op, now, now, failed)]))
      else Some(Move(s, p, Loaded(store, now, failed)))
  }

  function DoEdit(s: State, p: nat, now: string): Option<State>
    requires p < |s.calls|
  {
    if !s.calls[p].pc.Loaded? then None
    else
      var e := Edited(s.calls[p].op, s.calls[p].pc.store, now);
      if e.None? then None else Some(Move(s, p, Drafted(Written(e.value), s.calls[p].pc.at, now, s.calls[p].pc.blind)))
  }

  function DoWriteTemp(s: State, p: nat, name: string): Option<State>
    requires p < |s.calls|
  {
    var pc := s.calls[p].pc;
    if !pc.Drafted? then None
    else Some(Move(s, p, Saved(name, pc.at, pc.now, pc.blind)).(temp := s.temp[name := pc.content]))
  }

  function DoRename(s: State, p: nat): Option<State>
    requires p < |s.calls|
  {
    var pc := s.calls[p].pc;
    if !pc.Saved? || pc.name !in s.temp then None
    else Some(Move(s, p, Renamed).(file := s.temp[pc.name], temp := s.temp - {pc.name},
                                   log := s.log + [Commit(p, s.calls[p].op, pc.at, pc.now, pc.blind)]))
  }

  function DoRmdir(s: State, p: nat, removed: bool): Option<State>
    requires p < |s.calls|
  {
    var pc := s.calls[p].pc;
    if !pc.Leaving? then None
    else Some(Move(s, p, Returned(pc.committed, pc.ok)).(
      locked := s.locked && !removed, dropped := s.dropped + if removed then {} else {p}))
  }

  function DoCrash(s: State, p: nat): Option<State>
    requires p < |s.calls|
  {
    var pc := s.calls[p].pc;
    if pc.Returned? || pc.Crashed? then None
    else Some(Move(s, p, Crashed(Committed(pc))).(dropped := s.dropped + if Holds(pc) then {p} else {}))
  }

  function Do(s: State, a: Action): Option<State> {
    if a.Begin? then Some(s.(calls := s.calls + [Call(a.op, Trying(0))]))
    else
      var p := a.call;
      if p >= |s.calls| then None
      else
        var pc := s.calls[p].pc;
        match a
        case Mkdir(_) => DoMkdir(s, p)
        case LockError(_) => if pc.Trying? then Some(Move(s, p, Returned(false, false))) else None
        case Read(_, now, failed) => DoRead(s, p, now, failed)
        case Edit(_, now) => DoEdit(s, p, now)
        case WriteTemp(_, name) => DoWriteTemp(s, p, name)
        case Rename(_) => DoRename(s, p)
        case Chmod(_, ok) => if pc.Renamed? then Some(Move(s, p, Leaving(true, ok))) else None
        case Throw(_) => if pc.Locked? || pc.Loaded? || pc.Drafted? || pc.Saved? then Some(Move(s, p, Leaving(false, false))) else None
        case Rmdir(_, removed) => DoRmdir(s, p, removed)
        case Crash(_) => DoCrash(s, p)
  }

  function Run(s: State, schedule: seq<Action>): Option<State>
    decreases |schedule|
  {
    if schedule == [] then Some(s)
    else
      var before := Run(s, schedule[..|schedule| - 1]);
      if before.None? then None else Do(before.value, schedule[|schedule| - 1])
  }

  // ---------------------------------------------------------------- what every step keeps

  /** The sequential effect of the commits, one whole call after another. */
  function Replay(c: Content, log: seq<Commit>): Content
    decreases |log|
  {
    if log == [] then c
    else
      var last := log[|log| - 1];
      After(last.op, last.blind, Replay(c, log[..|log| - 1]), last.at, last.now)
  }

  /** The calls of `order` that have committed. */
  function CommittedOf(order: seq<nat>, calls: seq<Call>): seq<nat>
    requires forall k | 0 <= k < |order| :: order[k] < |calls|
    decreases |order|
  {
    if order == [] then []
    else
      var rest := CommittedOf(order[..|order| - 1], calls);
      var p := order[|order| - 1];
      if Committed(calls[p].pc) then rest + [p] else rest
  }

  function CallsOf(log: seq<Commit>): seq<nat> {
    seq(|log|, k requires 0 <= k < |log| => log[k].call)
  }

  predicate Owner(s: State, p: nat) {
    s.order != [] && s.order[|s.order| - 1] == p
  }

  /** Who has the lock: a holder is the last to have made it, and so is a call that left it behind. */
  predicate Exclusive(s: State) {
    && (forall p | 0 <= p < |s.calls| && Holds(s.calls[p].pc) :: Owner(s, p) && s.locked && s.dropped == {})
    && (forall p | p in s.dropped :: Owner(s, p) && s.locked)
    && (s.locked ==> exists p | 0 <= p < |s.calls| :: Owner(s, p) && (Holds(s.calls[p].pc) || p in s.dropped))
  }

  /** `order` lists the calls past the lock, each once. */
  predicate Ordered(s: State) {
    && (forall k | 0 <= k < |s.order| :: s.order[k] < |s.calls|)
    && (forall k | 0 <= k < |s.order| :: !s.calls[s.order[k]].pc.Trying?)
    && (forall j, k | 0 <= j < k < |s.order| :: s.order[j] != s.order[k])
    && (forall p | 0 <= p < |s.calls| && (Committed(s.calls[p].pc) || Holds(s.calls[p].pc)) :: p in s.order)
  }

  /** What a call in the locked section carries is what the file will be after it. */
  predicate Ready(s: State, c: Call) {
    match c.pc
    case Loaded(store, at, blind) => store == Load(Seen(s.file, blind), at) && Edited(c.op, store, "").Some?
    case Drafted(content, at, now, blind) => content == After(c.op, blind, s.file, at, now)
    case Saved(name, at, now, blind) => name in s.temp && s.temp[name] == After(c.op, blind, s.file, at, now)
    case Returned(committed, ok) => ok ==> committed
    case Leaving(committed, ok) => ok ==> committed
    case _ => true
  }

  predicate Logged(c: Content, s: State) {
    && s.file == Replay(c, s.log)
    && (forall k | 0 <= k < |s.log| :: s.log[k].call < |s.calls| && s.log[k].op == s.calls[s.log[k].call].op)
  }

  ghost predicate Inv(c: Content, s: State) {
    && Ordered(s) && Exclusive(s) && Logged(c, s)
    && (forall p | 0 <= p < |s.calls| :: Ready(s, s.calls[p]))
    && CallsOf(s.log) == CommittedOf(s.order, s.calls)
  }

  lemma {:induction false} CommittedSame(order: seq<nat>, a: seq<Call>, b: seq<Call>)
    requires forall k | 0 <= k < |order| :: order[k] < |a| && order[k] < |b| && (Committed(a[order[k]].pc) <==> Committed(b[order[k]].pc))
    ensures CommittedOf(order, a) == CommittedOf(order, b)
    decreases |order|
  {
    if order != [] {
      CommittedSame(order[..|order| - 1], a, b);
    }
  }

  /** A step that neither commits nor takes the lock: only `p`, the temporary files and the lock change. */
  lemma QuietKeeps(c: Content, s: State, p: nat, t: State)
    requires Inv(c, s) && p < |s.calls| && t == s.(calls := t.calls, temp := t.temp, locked := t.locked, dropped := t.dropped)
    requires |t.calls| == |s.calls| && t.calls[p].op == s.calls[p].op && (forall q | 0 <= q < |s.calls| && q != p :: t.calls[q] == s.calls[q])
    requires Committed(t.calls[p].pc) <==> Committed(s.calls[p].pc)
    requires t.calls[p].pc.Trying? ==> s.calls[p].pc.Trying?
    requires Holds(t.calls[p].pc) ==> Holds(s.calls[p].pc)
    requires (t.temp == s.temp || Holds(s.calls[p].pc)) && Ready(t, t.calls[p])
    requires Exclusive(t)
    ensures Inv(c, t)
  {
    hide Replay, After, Load, Committed;
    CommittedSame(s.order, s.calls, t.calls);
    forall q | 0 <= q < |t.calls|
      ensures Ready(t, t.calls[q])
    {
      if q != p { assert t.calls[q] == s.calls[q] && Ready(s, s.calls[q]); }
    }
  }

  lemma BeginKeeps(c: Content, s: State, op: Op)
    requires Inv(c, s)
    ensures Inv(c, Do(s, Begin(op)).value)
  {
    hide Replay, After, Load;
    var t := Do(s, Begin(op)).value;
    CommittedSame(s.order, s.calls, t.calls);
    forall q | 0 <= q < |t.calls|
      ensures Ready(t, t.calls[q])
    {
      if q < |s.calls| { assert Ready(s, s.calls[q]); }
    }
    if s.locked {
      var q :| 0 <= q < |s.calls| && Owner(s, q) && (Holds(s.calls[q].pc) || q in s.dropped);
      assert t.calls[q] == s.calls[q] && Owner(t, q);
    }
  }

  predicate TakesLock(s: State, p: nat, t: State) {
    p < |s.calls| && s.calls[p].pc.Trying? && !s.locked && t == Move(s, p, Locked).(locked := true, order := s.order + [p])
  }

  lemma LockOrdered(s: State, p: nat, t: State)
    requires Ordered(s) && TakesLock(s, p, t)
    ensures Ordered(t)
  {
    assert p !in s.order;
    assert p in t.order && forall q | q in s.order :: q in t.order;
  }

  lemma LockExclusive(s: State, p: nat, t: State)
    requires Exclusive(s) && TakesLock(s, p, t)
    ensures Exclusive(t)
  {
    assert Owner(t, p) && Holds(t.calls[p].pc);
  }

  lemma LockKeeps(c: Content, s: State, p: nat, t: State)
    requires Inv(c, s) && TakesLock(s, p, t)
    ensures Inv(c, t)
  {
    LockOrdered(s, p, t);
    LockExclusive(s, p, t);
    hide Exclusive;
    CommittedSame(s.order, s.calls, t.calls);
    assert t.order[..|t.order| - 1] == s.order;
    forall q | 0 <= q < |t.calls|
      ensures Ready(t, t.calls[q])
    {
      if q != p { assert t.calls[q] == s.calls[q] && Ready(s, s.calls[q]); }
    }
  }

  /** The one step that changes the file, or commits without changing it. */
  lemma CommitKeeps(c: Content, s: State, p: nat, pc: Pc, at: string, now: string, blind: bool, t: State)
    requires Inv(c, s) && p < |s.calls| && Holds(s.calls[p].pc) && !Committed(s.calls[p].pc)
    requires pc == Renamed || pc == Leaving(true, true)
    requires t == Move(s, p, pc).(file := t.file, temp := t.temp, log := s.log + [Commit(p, s.calls[p].op, at, now, blind)])
    requires t.file == After(s.calls[p].op, blind, s.file, at, now)
    ensures Inv(c, t)
  {
    hide After, Load;
    var n := |s.order| - 1;
    assert Owner(s, p) && Owner(t, p);
    CommittedSame(s.order[..n], s.calls, t.calls);
    assert CallsOf(t.log) == CallsOf(s.log) + [p];
    assert t.log[..|t.log| - 1] == s.log;
    forall q | 0 <= q < |t.calls|
      ensures Ready(t, t.calls[q])
    {
      if q != p { assert t.calls[q] == s.calls[q] && Ready(s, s.calls[q]); }
    }
    assert p in s.order;
  }

  lemma QuietExclusive(s: State, p: nat, t: State)
    requires Exclusive(s) && p < |s.calls| && |t.calls| == |s.calls| && t.order == s.order && t.locked == s.locked && t.dropped == s.dropped
    requires forall q | 0 <= q < |s.calls| && q != p :: t.calls[q] == s.calls[q]
    requires Holds(t.calls[p].pc) == Holds(s.calls[p].pc)
    ensures Exclusive(t)
  {
    forall q | 0 <= q < |t.calls| && Holds(t.calls[q].pc)
      ensures Owner(t, q) && t.locked && t.dropped == {}
    {
      assert Holds(s.calls[q].pc) && Owner(s, q);
    }
    if s.locked {
      var q :| 0 <= q < |s.calls| && Owner(s, q) && (Holds(s.calls[q].pc) || q in s.dropped);
      assert Owner(t, q) && (Holds(t.calls[q].pc) || q in t.dropped);
    }
  }

  /** Steps inside the locked section, and failed tries outside it. */
  lemma SectionKeeps(c: Content, s: State, a: Action, t: State)
    requires Inv(c, s) && Do(s, a) == Some(t)
    requires (a.Mkdir? && s.locked) || a.LockError? || a.Edit? || a.WriteTemp? || a.Chmod? || a.Throw? || (a.Read? && t.calls[a.call].pc.Loaded?)
    ensures Inv(c, t)
  {
    hide Ordered, Logged, Load;
    var p := a.call;
    assert Ready(s, s.calls[p]);
    QuietExclusive(s, p, t);
    QuietKeeps(c, s, p, t);
  }

  lemma ReleaseKeeps(c: Content, s: State, a: Action, t: State)
    requires Inv(c, s) && Do(s, a) == Some(t) && (a.Rmdir? || a.Crash?)
    ensures Inv(c, t)
  {
    hide Ordered, Logged, Replay, Load;
    var p := a.call;
    assert Ready(s, s.calls[p]);
    if a.Crash? && !Holds(s.calls[p].pc) {
      QuietExclusive(s, p, t);
    } else {
      assert Owner(s, p) && s.locked && s.dropped == {};
      assert Owner(t, p);
    }
    QuietKeeps(c, s, p, t);
  }

  lemma StepKeeps(c: Content, s: State, a: Action)
    requires Inv(c, s) && Do(s, a).Some?
    ensures Inv(c, Do(s, a).value)
  {
    var t := Do(s, a).value;
    if a.Begin? {
      BeginKeeps(c, s, a.op);
    } else if a.Mkdir? && !s.locked {
      LockKeeps(c, s, a.call, t);
    } else if a.Rename? {
      assert Ready(s, s.calls[a.call]);
      CommitKeeps(c, s, a.call, Renamed, s.calls[a.call].pc.at, s.calls[a.call].pc.now, s.calls[a.call].pc.blind, t);
    } else if a.Read? && t.calls[a.call].pc.Leaving? {
      CommitKeeps(c, s, a.call, Leaving(true, true), a.now, a.now, a.failed, t);
    } else if a.Rmdir? || a.Crash? {
      ReleaseKeeps(c, s, a, t);
    } else {
      SectionKeeps(c, s, a, t);
    }
  }

  lemma {:induction false} RunKeeps(c: Content, schedule: seq<Action>)
    requires Run(Start(c), schedule).Some?
    ensures Inv(c, Run(Start(c), schedule).value)
    decreases |schedule|
  {
    if schedule != [] {
      var before := schedule[..|schedule| - 1];
      RunKeeps(c, before);
      StepKeeps(c, Run(Start(c), before).value, schedule[|schedule| - 1]);
      hide Do, Inv;
    }
  }

  // ---------------------------------------------------------------- over whole runs

  /** At most one call is between making the lock directory and removing it. */
  lemma MutualExclusion(c: Content, schedule: seq<Action>, p: nat, q: nat)
    requires Run(Start(c), schedule).Some?
    requires var s := Run(Start(c), schedule).value; p < |s.calls| && q < |s.calls| && Holds(s.calls[p].pc) && Holds(s.calls[q].pc)
    ensures p == q
  {
    RunKeeps(c, schedule);
    var s := Run(Start(c), schedule).value;
    assert Owner(s, p) && Owner(s, q);
  }

  /** How often a call has committed. */
  function Times(log: seq<Commit>, p: nat): nat
    decreases |log|
  {
    if log == [] then 0 else Times(log[..|log| - 1], p) + if log[|log| - 1].call == p then 1 else 0
  }

  lemma {:induction false} TimesCommitted(order: seq<nat>, calls: seq<Call>, log: seq<Commit>, p: nat)
    requires forall k | 0 <= k < |order| :: order[k] < |calls|
    requires forall j, k | 0 <= j < k < |order| :: order[j] != order[k]
    requires CallsOf(log) == CommittedOf(order, calls) && p < |calls|
    ensures Times(log, p) == if p in order && Committed(calls[p].pc) then 1 else 0
    decreases |order|
  {
    if order == [] {
      assert |log| == |CallsOf(log)|;
    } else {
      var n := |order| - 1;
      var last := order[n];
      assert p in order <==> p in order[..n] || p == last;
      if Committed(calls[last].pc) {
        assert |log| == |CallsOf(log)|;
        var m := |log| - 1;
        assert CallsOf(log[..m]) == CallsOf(log)[..m] == CommittedOf(order[..n], calls);
        assert log[m].call == CallsOf(log)[m] == last;
        TimesCommitted(order[..n], calls, log[..m], p);
      } else {
        TimesCommitted(order[..n], calls, log, p);
      }
    }
  }

  /** At every moment the file is what the committed calls make of the first file, one after another
      in the order they took the lock, a blind one starting from nothing; each call that returned
      normally is among them exactly once, each that was refused the lock or failed before the
      rename not at all. */
  lemma Linearizable(c: Content, schedule: seq<Action>, p: nat)
    requires Run(Start(c), schedule).Some? && p < |Run(Start(c), schedule).value.calls|
    ensures var s := Run(Start(c), schedule).value;
      && s.file == Replay(c, s.log)
      && (forall k | 0 <= k < |s.order| :: s.order[k] < |s.calls|)
      && CallsOf(s.log) == CommittedOf(s.order, s.calls)
      && (forall k | 0 <= k < |s.log| :: s.log[k].call < |s.calls| && s.log[k].op == s.calls[s.log[k].call].op)
      && Times(s.log, p) == (if Committed(s.calls[p].pc) then 1 else 0)
      && (s.calls[p].pc.Returned? && s.calls[p].pc.ok ==> Times(s.log, p) == 1)
  {
    RunKeeps(c, schedule);
    var s := Run(Start(c), schedule).value;
    TimesCommitted(s.order, s.calls, s.log, p);
    assert Ready(s, s.calls[p]);
  }

  /** A later moment only adds commits and calls: successive readers see ever longer prefixes of one sequence. */
  lemma {:induction false} LogGrows(s: State, more: seq<Action>)
    requires Run(s, more).Some?
    ensures s.log <= Run(s, more).value.log && |s.calls| <= |Run(s, more).value.calls|
    decreases |more|
  {
    hide Do;
    if more != [] {
      LogGrows(s, more[..|more| - 1]);
      StepGrows(Run(s, more[..|more| - 1]).value, more[|more| - 1]);
    }
  }

  lemma StepGrows(s: State, a: Action)
    requires Do(s, a).Some?
    ensures s.log <= Do(s, a).value.log && |s.calls| <= |Do(s, a).value.calls|
  {
    hide Load, Edited, Written;
  }

  lemma {:induction false} TimesPositive(log: seq<Commit>, p: nat, k: nat)
    requires k < |log| && log[k].call == p
    ensures Times(log, p) > 0
    decreases |log|
  {
    if k < |log| - 1 {
      assert log[..|log| - 1][k] == log[k];
      TimesPositive(log[..|log| - 1], p, k);
    }
  }

  lemma {:induction false} TimesTwice(log: seq<Commit>, p: nat, j: nat, k: nat)
    requires j < k < |log| && log[j].call == p && log[k].call == p
    ensures Times(log, p) > 1
    decreases |log|
  {
    if k < |log| - 1 {
      TimesTwice(log[..|log| - 1], p, j, k);
    } else {
      TimesPositive(log[..|log| - 1], p, j);
    }
  }

  lemma {:induction false} TimesFound(log: seq<Commit>, p: nat) returns (k: nat)
    requires Times(log, p) > 0
    ensures k < |log| && log[k].call == p
    decreases |log|
  {
    if log[|log| - 1].call == p {
      k := |log| - 1;
    } else {
      k := TimesFound(log[..|log| - 1], p);
    }
  }

  /** Real time: a call that had returned before another began is before it in the log. */
  lemma RealTime(c: Content, schedule: seq<Action>, more: seq<Action>, p: nat, q: nat, j: nat, k: nat)
    requires Run(Start(c), schedule).Some? && Run(Start(c), schedule + more).Some?
    requires var s, t := Run(Start(c), schedule).value, Run(Start(c), schedule + more).value;
      && p < |s.calls| <= q < |t.calls| && s.calls[p].pc.Returned? && s.calls[p].pc.ok
      && j < |t.log| && t.log[j].call == p && k < |t.log| && t.log[k].call == q
    ensures j < k
  {
    var s, t := Run(Start(c), schedule).value, Run(Start(c), schedule + more).value;
    RunConcat(Start(c), schedule, more);
    LogGrows(s, more);
    Linearizable(c, schedule, p);
    Linearizable(c, schedule + more, p);
    hide Run, Do, Replay, CommittedOf, CallsOf, Times;
    var i := TimesFound(s.log, p);
    assert t.log[i] == s.log[i];
    if i < j { TimesTwice(t.log, p, i, j); }
    if j < i { TimesTwice(t.log, p, j, i); }
    assert forall m | 0 <= m < |s.log| :: t.log[m] == s.log[m];
  }

  lemma {:induction false} RunConcat(s: State, first: seq<Action>, second: seq<Action>)
    ensures Run(s, first + second) == if Run(s, first).None? then None else Run(Run(s, first).value, second)
    decreases |second|
  {
    if second == [] {
      assert first + second == first;
    } else {
      var n := |second| - 1;
      RunConcat(s, first, second[..n]);
      assert (first + second)[..|first + second| - 1] == first + second[..n];
    }
  }

  // ---------------------------------------------------------------- what readers see

  /** What a commit makes of one project: a blind save or removal starts from no projects at all,
      a blind update finds nothing to update. */
  function EffectSeen(m: Commit, id: string, before: Option<Record>): Option<Record> {
    if !m.blind then Effect(m.op, id, before, m.now)
    else if m.op.Update? then before
    else Effect(m.op, id, None, m.now)
  }

  /** What the commits, in order, make of one project. */
  function Effects(log: seq<Commit>, id: string, before: Option<Record>): Option<Record>
    decreases |log|
  {
    if log == [] then before
    else EffectSeen(log[|log| - 1], id, Effects(log[..|log| - 1], id, before))
  }

  lemma EffectSeenOf(m: Commit, c: Content, id: string, t: string)
    requires var d := After(m.op, m.blind, c, m.at, m.now); d.Legacy? ==> t == m.at
    ensures GetProject(After(m.op, m.blind, c, m.at, m.now), id, t) == EffectSeen(m, id, GetProject(c, id, m.at))
  {
    hide LegacyProjects, Cached, Strip;
    if !m.blind {
      assert After(m.op, false, c, m.at, m.now) == Apply(m.op, c, m.at, m.now);
      StripLoaded(c, m.at, id);
      ApplyEffect(m.op, c, m.at, m.now, id, t);
    } else if m.op.Update? {
      assert After(m.op, true, c, m.at, m.now) == c;
      SameWhenever(c, id, t, m.at);
    } else {
      assert After(m.op, true, c, m.at, m.now) == Apply(m.op, Missing, m.at, m.now);
      EffectOf(m.op, Missing, m.at, m.now, id, t);
      assert GetProject(Missing, id, m.at) == None;
    }
  }

  /** As `EffectOf`, for any load time where a write has fixed the times. */
  lemma ApplyEffect(op: Op, c: Content, at: string, now: string, id: string, t: string)
    requires Apply(op, c, at, now).Legacy? ==> t == at
    ensures GetProject(Apply(op, c, at, now), id, t) == Effect(op, id, GetProject(c, id, at), now)
  {
    if Apply(op, c, at, now).Legacy? || !c.Legacy? || !op.Update? {
      EffectOf(op, c, at, now, id, t);
    } else {
      StripLoaded(c, at, id);
    }
  }

  lemma SameWhenever(c: Content, id: string, t: string, u: string)
    requires c.Legacy? ==> t == u
    ensures GetProject(c, id, t) == GetProject(c, id, u)
  {
  }

  lemma {:induction false} LegacyKeys(items: seq<Record>, t: string, u: string, id: string)
    ensures id in LegacyProjects(items, t) <==> id in LegacyProjects(items, u)
    decreases |items|
  {
    if items != [] {
      LegacyKeys(items[..|items| - 1], t, u, id);
    }
  }

  /** A file in the old format stays as it is until the first write. */
  lemma {:induction false} LegacyStays(c: Content, log: seq<Commit>, id: string, w: string)
    requires Replay(c, log).Legacy?
    ensures c.Legacy? && Replay(c, log) == c && Effects(log, id, GetProject(c, id, w)) == GetProject(c, id, w)
    decreases |log|
  {
    if log != [] {
      var last, rest := log[|log| - 1], log[..|log| - 1];
      LegacyStays(c, rest, id, w);
      if !last.blind {
        hide LegacyProjects, Strip, Cached;
        assert last.op.Update? && last.op.id !in LegacyProjects(c.items, last.at);
        LegacyKeys(c.items, last.at, w, last.op.id);
      }
    }
  }

  /** When a file in the old format was loaded for its first rewriting, or else `t`: that time is
      what the entries are stamped with. */
  function FirstLoad(c: Content, log: seq<Commit>, t: string): string
    decreases |log|
  {
    if log == [] then t
    else
      var last, rest := log[|log| - 1], log[..|log| - 1];
      if !Replay(c, rest).Legacy? then FirstLoad(c, rest, t)
      else if Replay(c, log).Legacy? then t
      else last.at
  }

  lemma {:induction false} ReplayEffects(c: Content, log: seq<Commit>, id: string, t: string)
    ensures GetProject(Replay(c, log), id, t) == Effects(log, id, GetProject(c, id, FirstLoad(c, log, t)))
    decreases |log|
  {
    hide GetProject, After, EffectSeen;
    if log != [] {
      var last, rest := log[|log| - 1], log[..|log| - 1];
      var f := Replay(c, rest);
      if Replay(c, log).Legacy? {
        LegacyStays(c, log, id, t);
        LegacyBefore(c, log);
      } else if f.Legacy? {
        LegacyStays(c, rest, id, last.at);
        EffectSeenOf(last, f, id, t);
      } else {
        ReplayEffects(c, rest, id, t);
        SameWhenever(f, id, t, last.at);
        EffectSeenOf(last, f, id, t);
      }
    }
  }

  lemma LegacyBefore(c: Content, log: seq<Commit>)
    requires log != [] && Replay(c, log).Legacy?
    ensures Replay(c, log[..|log| - 1]).Legacy?
  {
  }

  /** A reader, who takes no lock, sees for each project what the committed calls so far made of it. */
  lemma ReaderSees(c: Content, schedule: seq<Action>, id: string, t: string)
    requires Run(Start(c), schedule).Some?
    ensures var s := Run(Start(c), schedule).value;
      GetProject(s.file, id, t) == Effects(s.log, id, GetProject(c, id, FirstLoad(c, s.log, t)))
  {
    RunKeeps(c, schedule);
    ReplayEffects(c, Run(Start(c), schedule).value.log, id, t);
  }

  // ---------------------------------------------------------------- failed reads

  /** A commit that writes without having seen the file. */
  predicate Wipes(m: Commit) {
    m.blind && !m.op.Update?
  }

  lemma EffectOther(m: Commit, id: string, before: Option<Record>)
    requires m.op.id != id
    ensures EffectSeen(m, id, before) == if Wipes(m) then None else before
  {
  }

  lemma {:induction false} EffectKept(log: seq<Commit>, k: nat, id: string, before: Option<Record>)
    requires k <= |log| && forall j | k <= j < |log| :: log[j].op.id != id
    ensures Effects(log, id, before) ==
      if exists j | k <= j < |log| :: Wipes(log[j]) then None else Effects(log[..k], id, before)
    decreases |log|
  {
    hide EffectSeen, Wipes;
    if k == |log| {
      assert log[..k] == log;
    } else {
      var n := |log| - 1;
      var rest := log[..n];
      assert forall j | k <= j < n :: rest[j] == log[j];
      EffectKept(rest, k, id, before);
      assert rest[..k] == log[..k];
      EffectOther(log[n], id, Effects(rest, id, before));
      if Wipes(log[n]) {
        assert Effects(log, id, before) == None;
      } else if exists j | k <= j < n :: Wipes(rest[j]) {
        var j :| k <= j < n && Wipes(rest[j]);
        assert Wipes(log[j]);
      }
    }
  }

  /** No lost update, exactly: what a commit made of its project, the last to concern that project,
      is seen by every later reader exactly when no later commit wrote without having seen the file. */
  lemma UpdateKept(c: Content, schedule: seq<Action>, k: nat, t: string)
    requires Run(Start(c), schedule).Some? && k < |Run(Start(c), schedule).value.log|
    requires var log := Run(Start(c), schedule).value.log; forall j | k < j < |log| :: log[j].op.id != log[k].op.id
    ensures var s := Run(Start(c), schedule).value;
      var id := s.log[k].op.id;
      var wiped := exists j | k < j < |s.log| :: Wipes(s.log[j]);
      && GetProject(s.file, id, t) == (if wiped then None else Effects(s.log[..k + 1], id, GetProject(c, id, FirstLoad(c, s.log, t))))
      && (s.log[k].op.Save? ==> (GetProject(s.file, id, t).None? <==> wiped))
      && (s.log[k].op.Save? && !wiped ==> SavedAs(GetProject(s.file, id, t).value, s.log[k].op.project, s.log[k].now))
  {
    hide SavedAs, Run, GetProject, FirstLoad, Effects, Wipes;
    var s := Run(Start(c), schedule).value;
    var id := s.log[k].op.id;
    var before := GetProject(c, id, FirstLoad(c, s.log, t));
    ReaderSees(c, schedule, id, t);
    EffectKept(s.log, k + 1, id, before);
    if s.log[k].op.Save? { SaveShows(s.log, k, id, before); }
    assert (exists j | k < j < |s.log| :: Wipes(s.log[j])) <==> (exists j | k + 1 <= j < |s.log| :: Wipes(s.log[j]));
  }

  lemma SaveShows(log: seq<Commit>, k: nat, id: string, before: Option<Record>)
    requires k < |log| && log[k].op.Save? && log[k].op.id == id
    ensures Effects(log[..k + 1], id, before).Some? && SavedAs(Effects(log[..k + 1], id, before).value, log[k].op.project, log[k].now)
  {
    hide Effect, SavedAs;
    assert log[..k + 1][k] == log[k] && log[..k + 1][..k] == log[..k];
    EffectSaves(log[k].op, None, log[k].now);
    EffectSaves(log[k].op, Effects(log[..k], id, before), log[k].now);
  }

  /** The steps of one call that nobody disturbs, its read succeeding or not. */
  function CallSteps(p: nat, now: string, name: string, failed: bool): seq<Action> {
    [Mkdir(p), Read(p, now, failed), Edit(p, now), WriteTemp(p, name), Rename(p), Chmod(p, true), Rmdir(p, true)]
  }

  /** Step by step from a state. */
  function Steps(s: State, schedule: seq<Action>): Option<State>
    decreases |schedule|
  {
    if schedule == [] then Some(s)
    else
      var next := Do(s, schedule[0]);
      if next.None? then None else Steps(next.value, schedule[1..])
  }

  lemma {:induction false} StepsRun(s: State, schedule: seq<Action>)
    ensures Run(s, schedule) == Steps(s, schedule)
    decreases |schedule|
  {
    if schedule != [] {
      var next := Do(s, schedule[0]);
      RunConcat(s, [schedule[0]], schedule[1..]);
      assert schedule == [schedule[0]] + schedule[1..];
      assert [schedule[0]][..0] == [] && Run(s, []) == Some(s);
      assert Run(s, [schedule[0]]) == next;
      if next.Some? { StepsRun(next.value, schedule[1..]); }
    }
  }

  lemma MoveOnly(s: State, op: Op, from: Pc, to: Pc)
    requires s.calls == [Call(op, from)]
    ensures Move(s, 0, to) == s.(calls := [Call(op, to)])
  {
    assert s.calls[0 := Call(op, to)] == [Call(op, to)];
  }

  /** A lone call's states, from the lock to the temporary file. */
  lemma LoneWrite(s: State, op: Op, now: string, name: string, failed: bool)
    requires op.Save? && s.calls == [Call(op, Trying(0))] && !s.locked
    ensures var content := After(op, failed, s.file, now, now);
      Steps(s, [Mkdir(0), Read(0, now, failed), Edit(0, now), WriteTemp(0, name)]) ==
        Some(s.(calls := [Call(op, Saved(name, now, now, failed))], locked := true, order := s.order + [0], temp := s.temp[name := content]))
  {
    hide Load, Cached;
    var content := After(op, failed, s.file, now, now);
    var store := Load(Seen(s.file, failed), now);
    var s1 := s.(calls := [Call(op, Locked)], locked := true, order := s.order + [0]);
    var s2 := s1.(calls := [Call(op, Loaded(store, now, failed))]);
    var s3 := s1.(calls := [Call(op, Drafted(content, now, now, failed))]);
    var s4 := s1.(calls := [Call(op, Saved(name, now, now, failed))], temp := s.temp[name := content]);
    MoveOnly(s, op, Trying(0), Locked);
    MoveOnly(s1, op, Locked, s2.calls[0].pc);
    MoveOnly(s2, op, s2.calls[0].pc, s3.calls[0].pc);
    MoveOnly(s3, op, s3.calls[0].pc, s4.calls[0].pc);
    assert Do(s, Mkdir(0)) == Some(s1) && Do(s1, Read(0, now, failed)) == Some(s2);
    assert Do(s2, Edit(0, now)) == Some(s3) && Do(s3, WriteTemp(0, name)) == Some(s4);
    FourSteps(s, Mkdir(0), s1, Read(0, now, failed), s2, Edit(0, now), s3, WriteTemp(0, name), s4);
  }

  lemma FourSteps(s: State, a: Action, s1: State, b: Action, s2: State, c: Action, s3: State, d: Action, s4: State)
    requires Do(s, a) == Some(s1) && Do(s1, b) == Some(s2) && Do(s2, c) == Some(s3) && Do(s3, d) == Some(s4)
    ensures Steps(s, [a, b, c, d]) == Some(s4)
  {
    hide Do;
    assert [a, b, c, d][1..] == [b, c, d] && [b, c, d][1..] == [c, d] && [c, d][1..] == [d] && [d][1..] == [];
    assert Steps(s4, []) == Some(s4);
    assert Steps(s3, [d]) == Some(s4);
    assert Steps(s2, [c, d]) == Some(s4);
    assert Steps(s1, [b, c, d]) == Some(s4);
  }

  /** And from there to its return. */
  lemma LoneReturn(s: State, op: Op, now: string, name: string, failed: bool, content: Content)
    requires s.calls == [Call(op, Saved(name, now, now, failed))] && s.locked && s.temp == map[name := content]
    ensures Steps(s, [Rename(0), Chmod(0, true), Rmdir(0, true)]) ==
      Some(s.(calls := [Call(op, Returned(true, true))], locked := false, temp := map[], file := content,
              log := s.log + [Commit(0, op, now, now, failed)]))
  {
    var s1 := s.(calls := [Call(op, Renamed)], temp := map[], file := content, log := s.log + [Commit(0, op, now, now, failed)]);
    var s2 := s1.(calls := [Call(op, Leaving(true, true))]);
    var s3 := s1.(calls := [Call(op, Returned(true, true))], locked := false);
    MoveOnly(s, op, s.calls[0].pc, Renamed);
    MoveOnly(s1, op, Renamed, Leaving(true, true));
    MoveOnly(s2, op, Leaving(true, true), Returned(true, true));
    assert map[name := content] - {name} == map[];
    assert Do(s, Rename(0)) == Some(s1) && Do(s1, Chmod(0, true)) == Some(s2);
    assert s2.dropped + {} == s2.dropped;
    assert Do(s2, Rmdir(0, true)) == Some(s3);
    ThreeSteps(s, Rename(0), s1, Chmod(0, true), s2, Rmdir(0, true), s3);
  }

  lemma ThreeSteps(s: State, a: Action, s1: State, b: Action, s2: State, c: Action, s3: State)
    requires Do(s, a) == Some(s1) && Do(s1, b) == Some(s2) && Do(s2, c) == Some(s3)
    ensures Steps(s, [a, b, c]) == Some(s3)
  {
    hide Do;
    assert [a, b, c][1..] == [b, c] && [b, c][1..] == [c] && [c][1..] == [];
    assert Steps(s3, []) == Some(s3);
    assert Steps(s2, [c]) == Some(s3);
    assert Steps(s1, [b, c]) == Some(s3);
  }

  /** A save nobody disturbs returns normally; when its read fails, it leaves its own project alone. */
  lemma LoneSave(c: Content, id: string, project: Record, now: string, name: string, failed: bool)
    ensures var end := Run(Start(c), [Begin(Save(id, project))] + CallSteps(0, now, name, failed));
      && end.Some? && end.value.calls == [Call(Save(id, project), Returned(true, true))] && !end.value.locked
      && end.value.log == [Commit(0, Save(id, project), now, now, failed)]
      && end.value.file == After(Save(id, project), failed, c, now, now)
  {
    hide Run, Steps, After, Do;
    var op := Save(id, project);
    var write, back := [Mkdir(0), Read(0, now, failed), Edit(0, now), WriteTemp(0, name)], [Rename(0), Chmod(0, true), Rmdir(0, true)];
    assert [Begin(op)] + CallSteps(0, now, name, failed) == [Begin(op)] + (write + back);
    var s0 := Start(c).(calls := [Call(op, Trying(0))]);
    BeginOnly(c, op);
    LoneWrite(s0, op, now, name, failed);
    var s1 := Steps(s0, write).value;
    LoneReturn(s1, op, now, name, failed, After(op, failed, c, now, now));
    StepsRun(s0, write);
    StepsRun(s1, back);
    RunConcat(s0, write, back);
    RunConcat(Start(c), [Begin(op)], write + back);
  }

  lemma BeginOnly(c: Content, op: Op)
    ensures Run(Start(c), [Begin(op)]) == Some(Start(c).(calls := [Call(op, Trying(0))]))
  {
    assert [Begin(op)][..0] == [] && Run(Start(c), []) == Some(Start(c));
    assert [] + [Call(op, Trying(0))] == [Call(op, Trying(0))];
  }

  /** The loss a failed read causes: whatever projects the file holds, a save of another one whose
      read fails returns normally, and all of them are gone. */
  lemma FailedReadLoses(c: Content, id: string, project: Record, now: string, name: string, other: string, t: string)
    requires other != id
    ensures var end := Run(Start(c), [Begin(Save(id, project))] + CallSteps(0, now, name, true));
      && end.Some? && end.value.calls[0].pc == Returned(true, true)
      && GetProject(end.value.file, other, t).None? && GetProject(end.value.file, id, t).Some?
  {
    LoneSave(c, id, project, now, name, true);
    var m := Commit(0, Save(id, project), now, now, true);
    EffectSeenOf(m, c, other, t);
    EffectSeenOf(m, c, id, t);
  }

  // ---------------------------------------------------------------- the lock itself

  /** The lock is taken only while a call is inside, or because one crashed there or could not
      remove it; then no call ever gets in again, and the file stays readable as it is. */
  lemma LockExplained(c: Content, schedule: seq<Action>)
    requires Run(Start(c), schedule).Some?
    ensures var s := Run(Start(c), schedule).value;
      && (s.locked ==> s.dropped != {} || exists p | 0 <= p < |s.calls| :: Holds(s.calls[p].pc))
      && (s.dropped != {} ==> forall p | 0 <= p < |s.calls| :: !Holds(s.calls[p].pc))
  {
    RunKeeps(c, schedule);
  }

  /** A lock left behind is left behind for good. */
  ghost predicate Abandoned(s: State, t: State) {
    t.dropped != {} && t.locked && t.file == s.file && t.log == s.log
  }

  lemma DroppedStep(c: Content, s: State, a: Action)
    requires Inv(c, s) && s.dropped != {} && Do(s, a).Some?
    ensures Abandoned(s, Do(s, a).value)
  {
    var p :| p in s.dropped;
    assert s.locked && Owner(s, p);
    assert forall q | 0 <= q < |s.calls| :: !Holds(s.calls[q].pc);
  }

  lemma {:induction false} DroppedStays(c: Content, s: State, more: seq<Action>)
    requires Inv(c, s) && s.dropped != {} && Run(s, more).Some?
    ensures Inv(c, Run(s, more).value) && (more != [] ==> Abandoned(s, Run(s, more).value))
    decreases |more|
  {
    if more != [] {
      var before := more[..|more| - 1];
      DroppedStays(c, s, before);
      StepKeeps(c, Run(s, before).value, more[|more| - 1]);
      DroppedStep(c, Run(s, before).value, more[|more| - 1]);
      hide Do, Inv;
    }
  }

  // ---------------------------------------------------------------- how long a call takes

  /** How often a call has tried for the lock. */
  function Tries(schedule: seq<Action>, p: nat): nat
    decreases |schedule|
  {
    if schedule == [] then 0
    else Tries(schedule[..|schedule| - 1], p) + if schedule[|schedule| - 1] == Mkdir(p) then 1 else 0
  }

  /** After `schedule`: a call that is trying has tried fewer than 200 times, one that got in no more than
      200 times, and one that returned without getting in, no error in its way, exactly 200 times. */
  ghost predicate Patient(s: State, schedule: seq<Action>, p: nat) {
    if p >= |s.calls| then Tries(schedule, p) == 0
    else
      && (s.calls[p].pc.Trying? ==> Tries(schedule, p) == s.calls[p].pc.tries < 200)
      && (p in s.order ==> Tries(schedule, p) <= 200)
      && (p !in s.order && s.calls[p].pc.Returned? && LockError(p) !in schedule ==> Tries(schedule, p) == 200)
  }

  lemma {:induction false} Patience(c: Content, schedule: seq<Action>, p: nat)
    requires Run(Start(c), schedule).Some?
    ensures Patient(Run(Start(c), schedule).value, schedule, p)
    decreases |schedule|
  {
    if schedule != [] {
      var before, last := schedule[..|schedule| - 1], schedule[|schedule| - 1];
      Patience(c, before, p);
      RunKeeps(c, before);
      assert schedule == before + [last];
      PatientStep(c, Run(Start(c), before).value, before, last, p);
      hide Do, Inv, Patient;
    }
  }

  lemma PatientStep(c: Content, s: State, schedule: seq<Action>, a: Action, p: nat)
    requires Inv(c, s) && Patient(s, schedule, p) && Do(s, a).Some?
    ensures Patient(Do(s, a).value, schedule + [a], p)
  {
    assert (schedule + [a])[..|schedule|] == schedule;
    var t := Do(s, a).value;
    if p < |s.calls| && !a.Begin? && a.call == p && s.calls[p].pc.Trying? {
      assert p !in s.order;
      TryStep(s, p, a);
    } else if p < |s.calls| {
      OtherStep(c, s, p, a);
    }
  }

  /** The step of a call that is trying. */
  lemma TryStep(s: State, p: nat, a: Action)
    requires p < |s.calls| && s.calls[p].pc.Trying? && !a.Begin? && a.call == p && Do(s, a).Some?
    ensures var t, n := Do(s, a).value, s.calls[p].pc.tries;
      && a in {Mkdir(p), LockError(p), Crash(p)} && |t.calls| == |s.calls|
      && (a == LockError(p) ==> t == s.(calls := t.calls) && t.calls[p].pc == Returned(false, false))
      && (a == Crash(p) ==> t.calls[p].pc.Crashed? && t.order == s.order)
      && (a == Mkdir(p) && !s.locked ==> t.calls[p].pc == Locked && t.locked && t.order == s.order + [p])
      && (a == Mkdir(p) && s.locked ==> t == s.(calls := t.calls))
      && (a == Mkdir(p) && s.locked ==> t.calls[p].pc == if n < 199 then Trying(n + 1) else Returned(false, false))
  {
  }

  /** Any other step leaves the call where it is as far as the lock is concerned. */
  lemma OtherStep(c: Content, s: State, p: nat, a: Action)
    requires Inv(c, s) && p < |s.calls| && Do(s, a).Some? && (a.Begin? || a.call != p || !s.calls[p].pc.Trying?)
    ensures var t := Do(s, a).value;
      && a != Mkdir(p) && p < |t.calls| && (p in t.order <==> p in s.order)
      && (t.calls[p].pc.Trying? ==> t.calls[p].pc == s.calls[p].pc)
      && (p !in s.order && t.calls[p].pc.Returned? ==> s.calls[p].pc.Returned?)
  {
    var t := Do(s, a).value;
    if !a.Begin? && a.call != p {
      assert t.calls[p] == s.calls[p];
      assert t.order == s.order || t.order == s.order + [a.call];
    }
  }

  // ---------------------------------------------------------------- what may happen to a call

  predicate Over(pc: Pc) {
    pc.Returned? || pc.Crashed?
  }

  /** At any moment before its end a call may crash; its locked section may fail before the rename, its
      mkdir for another reason than the lock. What is in the file then stays as it is. */
  lemma MayFail(s: State, p: nat)
    requires p < |s.calls| && !Over(s.calls[p].pc)
    ensures var t := Do(s, Crash(p));
      t.Some? && t.value.calls[p].pc.Crashed? && t.value == s.(calls := t.value.calls, dropped := t.value.dropped)
    ensures s.calls[p].pc.Trying? ==>
      var t := Do(s, LockError(p)); t.Some? && t.value.calls[p].pc == Returned(false, false) && t.value == s.(calls := t.value.calls)
    ensures s.calls[p].pc.Locked? || s.calls[p].pc.Loaded? || s.calls[p].pc.Drafted? || s.calls[p].pc.Saved? ==>
      var t := Do(s, Throw(p)); t.Some? && t.value.calls[p].pc == Leaving(false, false) && t.value == s.(calls := t.value.calls)
  {
  }

  /** The next step of a call that nothing goes wrong with. */
  function Next(pc: Pc, p: nat, now: string, name: string): Action {
    match pc
    case Trying(_) => Mkdir(p)
    case Locked => Read(p, now, false)
    case Loaded(_, _, _) => Edit(p, now)
    case Drafted(_, _, _, _) => WriteTemp(p, name)
    case Saved(_, _, _, _) => Rename(p)
    case Renamed => Chmod(p, true)
    case _ => Rmdir(p, true)
  }

  /** At most how many such steps a call is from its end. */
  function Remaining(pc: Pc): nat {
    match pc
    case Trying(n) => if n < 200 then 206 - n else 7
    case Locked => 6
    case Loaded(_, _, _) => 5
    case Drafted(_, _, _, _) => 4
    case Saved(_, _, _, _) => 3
    case Renamed => 2
    case Leaving(_, _) => 1
    case _ => 0
  }

  lemma NextStep(s: State, p: nat, now: string, name: string)
    requires p < |s.calls| && !Over(s.calls[p].pc) && Ready(s, s.calls[p])
    ensures var t := Do(s, Next(s.calls[p].pc, p, now, name));
      && t.Some? && p < |t.value.calls| && !t.value.calls[p].pc.Crashed?
      && Remaining(t.value.calls[p].pc) < Remaining(s.calls[p].pc)
  {
    hide Load, Written, After;
    if s.calls[p].pc.Loaded? {
      EditedSome(s.calls[p].op, s.calls[p].pc.store, now);
    }
  }

  lemma EditedSome(op: Op, store: KeyStore, now: string)
    requires Edited(op, store, "").Some?
    ensures Edited(op, store, now).Some?
  {
  }

  /** From every state a call that is not over can go on to its return by itself, with at most 206 steps,
      whatever the others are doing. */
  lemma {:induction false} CallCanEnd(c: Content, s: State, p: nat, now: string, name: string) returns (more: seq<Action>)
    requires Inv(c, s) && p < |s.calls| && !s.calls[p].pc.Crashed?
    ensures |more| <= Remaining(s.calls[p].pc) <= 206
    ensures forall a | a in more :: !a.Begin? && a.call == p && !a.Crash? && !a.Throw? && !a.LockError?
    ensures Run(s, more).Some? && p < |Run(s, more).value.calls| && Run(s, more).value.calls[p].pc.Returned?
    decreases Remaining(s.calls[p].pc)
  {
    if s.calls[p].pc.Returned? {
      more := [];
    } else {
      var a := Next(s.calls[p].pc, p, now, name);
      assert Ready(s, s.calls[p]);
      hide Inv, Do, Ready;
      NextStep(s, p, now, name);
      StepKeeps(c, s, a);
      var t := Do(s, a).value;
      var rest := CallCanEnd(c, t, p, now, name);
      more := [a] + rest;
      RunConcat(s, [a], rest);
      assert [a][..0] == [] && Run(s, []) == Some(s) && Run(s, [a]) == Some(t);
    }
  }
}
