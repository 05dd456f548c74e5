/** The active-project selection of a profile (core/src/profile-state.ts): one entry per scope, and a
    flat selection that scopes without an entry fall back to. */
module ProfileState {
  import opened Common

  /** A scope as a caller gives it, and the two defaults the configuration supplies. */
  datatype Scope = Scope(apiBase: Option<string>, principal: Option<string>, profile: Option<string>)
  datatype Defaults = Defaults(apiBase: string, profile: string)

  /** The JSON text of the three resolved parts, taken as the parts. */
  datatype Key = Key(apiBase: string, profile: string, principal: string)

  datatype Entry = Entry(project: string, previous: Option<string>)

  datatype State = State(entries: map<Key, Entry>, active: Option<string>, previous: Option<string>)

  const EMPTY := State(map[], None, None)

  function Or(o: Option<string>, fallback: string): string {
    if o.Some? then o.value else fallback
  }

  function ScopeKey(d: Defaults, scope: Scope): Key {
    Key(Or(scope.apiBase, d.apiBase), Or(scope.profile, d.profile), Or(scope.principal, "unknown"))
  }

  /** An absent text and an empty one are both falsy. */
  function Truthy(o: Option<string>): Option<string> {
    if o == Some("") then None else o
  }

  function Get(s: State, key: Key): Option<string> {
    if key in s.entries then Some(s.entries[key].project) else s.active
  }

  function Set(s: State, key: Key, project: string): State {
    var previous := if Get(s, key) == Some(project) then None else Truthy(Get(s, key));
    State(s.entries[key := Entry(project, previous)], Some(project), previous)
  }

  function ClearEntry(s: State, key: Key, project: string): map<Key, Entry> {
    if key !in s.entries || s.entries[key].project != project then s.entries
    else if Truthy(s.entries[key].previous).Some? then s.entries[key := Entry(s.entries[key].previous.value, None)]
    else s.entries - {key}
  }

  function Clear(s: State, key: Key, project: string): State {
    var entries := ClearEntry(s, key, project);
    if s.active != Some(project) then s.(entries := entries)
    else State(entries, if s.previous == Some(project) then None else Truthy(s.previous), None)
  }

  // ---------------------------------------------------------------- the code's own form

  /** What is loaded: a read that fails gives the empty state. */
  function Loaded(s: State, failed: bool): State {
    if failed then EMPTY else s
  }

  /** The state file: loaded, edited and saved under the lock. Whether the read fails is not up to
      the caller. */
  class StateFile {
    var saved: State

    constructor ()
      ensures saved == EMPTY
    {
      saved := EMPTY;
    }

    method SetActiveProjectId(project: string, d: Defaults, scope: Scope, failed: bool)
      modifies this
      ensures saved == Set(Loaded(old(saved), failed), ScopeKey(d, scope), project)
    {
      var state := if failed then EMPTY else saved;
      var key := ScopeKey(d, scope);
      var current := if key in state.entries then Some(state.entries[key].project) else state.active;
      var previous := if current.Some? && current.value != "" && current.value != project then current else None;
      state := state.(entries := state.entries[key := Entry(project, previous)]);
      state := state.(active := Some(project));
      state := state.(previous := previous);
      saved := state;
    }

    method ClearActiveProjectId(project: string, d: Defaults, scope: Scope, failed: bool)
      modifies this
      ensures saved == Clear(Loaded(old(saved), failed), ScopeKey(d, scope), project)
    {
      var state := if failed then EMPTY else saved;
      var key := ScopeKey(d, scope);
      if key in state.entries && state.entries[key].project == project {
        var scoped := state.entries[key];
        if scoped.previous.Some? && scoped.previous.value != "" {
          state := state.(entries := state.entries[key := Entry(scoped.previous.value, None)]);
        } else {
          state := state.(entries := state.entries - {key});
        }
      }
      if state.active == Some(project) {
        if state.previous.Some? && state.previous.value != "" && state.previous.value != project {
          state := state.(active := state.previous);
        } else {
          state := state.(active := None);
        }
        state := state.(previous := None);
      }
      saved := state;
    }
  }

  // ---------------------------------------------------------------- over whole runs

  /** A call, and whether its read failed. */
  datatype Step = SetStep(key: Key, project: string, failed: bool) | ClearStep(key: Key, project: string, failed: bool)

  function Do(s: State, step: Step): State {
    match step
    case SetStep(key, project, failed) => Set(Loaded(s, failed), key, project)
    case ClearStep(key, project, failed) => Clear(Loaded(s, failed), key, project)
  }

  function Run(s: State, steps: seq<Step>): State
    decreases |steps|
  {
    if steps == [] then s else Do(Run(s, steps[..|steps| - 1]), steps[|steps| - 1])
  }

  /** A remembered previous project is a real one, and not the current one. */
  predicate Remembers(s: State) {
    && (forall k | k in s.entries :: s.entries[k].previous.Some? ==> s.entries[k].previous.value != "" && s.entries[k].previous.value != s.entries[k].project)
    && (s.previous.Some? ==> s.previous.value != "" && s.active.Some? && s.previous != s.active)
  }

  lemma {:induction false} RunRemembers(steps: seq<Step>)
    ensures Remembers(Run(EMPTY, steps))
    decreases |steps|
  {
    if steps != [] {
      RunRemembers(steps[..|steps| - 1]);
    }
  }

  lemma RunOne(s: State, steps: seq<Step>, last: Step)
    ensures Run(s, steps + [last]) == Do(Run(s, steps), last)
  {
    assert (steps + [last])[..|steps|] == steps;
  }

  lemma SetSeen(s: State, key: Key, project: string)
    ensures Get(Set(s, key, project), key) == Some(project)
  {
  }

  lemma ClearSeen(s: State, key: Key, project: string)
    requires Remembers(s)
    ensures Get(Clear(s, key, project), key) != Some(project)
  {
  }

  /** After any run, a set is seen by its scope, and a cleared project is not, even when reads fail. */
  lemma SetAndClearSeen(steps: seq<Step>, key: Key, project: string, failed: bool)
    ensures Get(Run(EMPTY, steps + [SetStep(key, project, failed)]), key) == Some(project)
    ensures Get(Run(EMPTY, steps + [ClearStep(key, project, failed)]), key) != Some(project)
  {
    RunRemembers(steps);
    RunOne(EMPTY, steps, SetStep(key, project, failed));
    RunOne(EMPTY, steps, ClearStep(key, project, failed));
    var s := Loaded(Run(EMPTY, steps), failed);
    SetSeen(s, key, project);
    ClearSeen(s, key, project);
    hide Set, Clear, Get;
  }

  /** Setting a project and clearing it again, from any state: the scope sees what it saw before
      exactly when that was nothing, or another project with a name. The flat selection becomes what
      this scope saw, so a scope without an entry of its own is undisturbed exactly when it agreed. */
  lemma ClearAfterSet(s: State, key: Key, project: string)
    ensures var before, after := Get(s, key), Clear(Set(s, key, project), key, project);
      && (Get(after, key) == before <==> before.None? || (before != Some("") && before != Some(project)))
      && (forall other | other != key && other !in s.entries :: (Get(after, other) == Get(s, other) <==>
            s.active == if before == Some(project) then None else Truthy(before)))
  {
    var set1 := Set(s, key, project);
    assert set1.active == Some(project) && set1.entries[key].project == project;
  }

  predicate Touches(steps: seq<Step>, key: Key) {
    exists k | 0 <= k < |steps| :: steps[k].key == key
  }

  predicate AnyFailed(steps: seq<Step>) {
    exists k | 0 <= k < |steps| :: steps[k].failed
  }

  /** A scope with an entry of its own sees none of what other scopes do, however much, exactly when
      none of their reads failed: a read that fails is saved over every other scope's entry. */
  lemma {:induction false} OwnEntryUnaffected(s: State, steps: seq<Step>, key: Key)
    requires key in s.entries && !Touches(steps, key)
    ensures var t := Run(s, steps);
      if AnyFailed(steps) then key !in t.entries else key in t.entries && t.entries[key] == s.entries[key] && Get(t, key) == Get(s, key)
    decreases |steps|
  {
    if steps != [] {
      var n := |steps| - 1;
      assert steps[n].key != key;
      assert forall k | 0 <= k < n :: steps[..n][k] == steps[k];
      OwnEntryUnaffected(s, steps[..n], key);
      OthersStep(Run(s, steps[..n]), steps[n], key);
      assert AnyFailed(steps) <==> AnyFailed(steps[..n]) || steps[n].failed;
    }
  }

  lemma OthersStep(s: State, step: Step, key: Key)
    requires step.key != key
    ensures step.failed || key !in s.entries ==> key !in Do(s, step).entries
    ensures !step.failed && key in s.entries ==> key in Do(s, step).entries && Do(s, step).entries[key] == s.entries[key]
  {
  }

  /** Two ways to name the same part: alike, or one left out and the other naming what stands for it. */
  predicate Alike(a: Option<string>, b: Option<string>, fallback: string) {
    a == b || (a == None && b == Some(fallback)) || (b == None && a == Some(fallback))
  }

  /** Scopes share a key exactly when they name the same API base and profile, the configured ones where
      they name none, and the same principal, a missing one being the one named `unknown`. */
  lemma KeysAgree(d: Defaults, a: Scope, b: Scope)
    ensures ScopeKey(d, a) == ScopeKey(d, b) <==>
      Alike(a.apiBase, b.apiBase, d.apiBase) && Alike(a.profile, b.profile, d.profile) && Alike(a.principal, b.principal, "unknown")
  {
    OrAgrees(a.apiBase, b.apiBase, d.apiBase);
    OrAgrees(a.profile, b.profile, d.profile);
    OrAgrees(a.principal, b.principal, "unknown");
    hide Or, Alike;
  }

  lemma OrAgrees(a: Option<string>, b: Option<string>, fallback: string)
    ensures Or(a, fallback) == Or(b, fallback) <==> Alike(a, b, fallback)
  {
  }
}
