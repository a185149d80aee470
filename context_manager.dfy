/**
 * The context managers of the development tooling: one sets environment
 * variables for the duration of a `with` block and restores them afterwards,
 * the other switches the working directory and switches back.
 *
 * The process state (`os.environ` and the working directory) is an object
 * of class `Process`. Values are given already converted with `str`.
 */
module ContextManager {
  import opened Wrappers
  import opened Uniqueness

  /** The state of the process the context managers act on. */
  class Process {
    var environ: map<string, string>
    var cwd: string
    /** The paths that are directories. */
    var directories: set<string>

    constructor(environ: map<string, string>, cwd: string, directories: set<string>)
      ensures this.environ == environ && this.cwd == cwd && this.directories == directories
    {
      this.environ := environ;
      this.cwd := cwd;
      this.directories := directories;
    }
  }

  function Names<V>(pairs: seq<(string, V)>): (names: seq<string>)
    ensures |names| == |pairs| && forall i :: 0 <= i < |pairs| ==> names[i] == pairs[i].0
  {
    if pairs == [] then [] else [pairs[0].0] + Names(pairs[1..])
  }

  /** The first name does not come back, and the names after it are distinct too. */
  lemma DistinctNamesTail<V>(pairs: seq<(string, V)>)
    requires pairs != [] && NoDuplicates(Names(pairs))
    ensures pairs[0].0 !in Names(pairs[1..]) && NoDuplicates(Names(pairs[1..]))
  {
    var names := Names(pairs);
    var rest := Names(pairs[1..]);
    assert forall i :: 0 <= i < |rest| ==> rest[i] == names[i + 1];
  }

  /** `os.getenv(name)`. */
  function GetEnv(env: map<string, string>, name: string): Option<string>
  {
    if name in env then Some(env[name]) else None
  }

  /** The value `__enter__` saves for each managed name, in order. */
  function Saved(env: map<string, string>, pairs: seq<(string, string)>): (saved: seq<(string, Option<string>)>)
    ensures Names(saved) == Names(pairs)
  {
    if pairs == [] then []
    else [(pairs[0].0, GetEnv(env, pairs[0].0))] + Saved(env, pairs[1..])
  }

  /** Whether `__enter__` sets a variable: unset, empty (which is falsy) or overwriting. */
  predicate Overrides(env: map<string, string>, name: string, overwrite: bool)
  {
    name !in env || env[name] == "" || overwrite
  }

  /** The environment after `__enter__`. */
  function Entered(env: map<string, string>, pairs: seq<(string, string)>, overwrite: bool): map<string, string>
    decreases pairs
  {
    if pairs == [] then env
    else
      var name := pairs[0].0;
      Entered(if Overrides(env, name, overwrite) then env[name := pairs[0].1] else env, pairs[1..], overwrite)
  }

  datatype ExitError = KeyError(name: string)

  /** The environment after `__exit__`, or the name whose `os.environ.pop` raised, with the state reached by then. */
  function Restored(env: map<string, string>, saved: seq<(string, Option<string>)>): (map<string, string>, Option<ExitError>)
    decreases saved
  {
    if saved == [] then (env, None)
    else
      var name := saved[0].0;
      match saved[0].1
      case None => if name in env then Restored(env - {name}, saved[1..]) else (env, Some(KeyError(name)))
      case Some(v) => Restored(env[name := v], saved[1..])
  }

  /** Inside the context every managed variable is set as the flags say, and nothing else changes. */
  lemma {:induction false} EnteredValues(env: map<string, string>, pairs: seq<(string, string)>, overwrite: bool)
    requires NoDuplicates(Names(pairs))
    decreases pairs
    ensures var e := Entered(env, pairs, overwrite);
      (forall i :: 0 <= i < |pairs| ==> (pairs[i].0 in e &&
        e[pairs[i].0] == if Overrides(env, pairs[i].0, overwrite) then pairs[i].1 else env[pairs[i].0])) &&
      (forall n :: n !in Names(pairs) ==> GetEnv(e, n) == GetEnv(env, n))
  {
    if pairs != [] {
      var name := pairs[0].0;
      var env1 := if Overrides(env, name, overwrite) then env[name := pairs[0].1] else env;
      DistinctNamesTail(pairs);
      EnteredValues(env1, pairs[1..], overwrite);
      var e := Entered(env, pairs, overwrite);
      forall i | 0 <= i < |pairs|
        ensures pairs[i].0 in e && e[pairs[i].0] == if Overrides(env, pairs[i].0, overwrite) then pairs[i].1 else env[pairs[i].0]
      {
        if i > 0 {
          assert pairs[1..][i - 1] == pairs[i];
          assert Names(pairs)[i] == pairs[i].0 && Names(pairs)[0] == name;
          assert pairs[i].0 != name;
          assert Overrides(env1, pairs[i].0, overwrite) == Overrides(env, pairs[i].0, overwrite);
        } else {
          assert name !in Names(pairs[1..]);
        }
      }
    }
  }

  /** The saved values are the values before `__enter__`. */
  lemma {:induction false} SavedValues(env: map<string, string>, pairs: seq<(string, string)>)
    ensures forall i :: 0 <= i < |pairs| ==> Saved(env, pairs)[i] == (pairs[i].0, GetEnv(env, pairs[i].0))
  {
    if pairs != [] {
      SavedValues(env, pairs[1..]);
      assert forall i :: 1 <= i < |pairs| ==> pairs[1..][i - 1] == pairs[i];
    }
  }

  /**
   * Saving before and restoring after brings the environment back exactly,
   * whatever was done in between to the managed names, as long as none was
   * removed: restoring a name sets or removes it, and the names are distinct.
   */
  lemma {:induction false} RestoredAfterEnter(env: map<string, string>, during: map<string, string>, pairs: seq<(string, string)>)
    requires NoDuplicates(Names(pairs))
    requires forall i :: 0 <= i < |pairs| ==> pairs[i].0 in during
    requires forall n :: n !in Names(pairs) ==> GetEnv(during, n) == GetEnv(env, n)
    ensures Restored(during, Saved(env, pairs)) == (env, None)
  {
    if pairs == [] {
      assert forall n :: n in during <==> n in env by {
        forall n ensures n in during <==> n in env {
          assert GetEnv(during, n) == GetEnv(env, n);
        }
      }
      assert forall n :: n in env ==> during[n] == env[n] by {
        forall n | n in env ensures during[n] == env[n] {
          assert GetEnv(during, n) == GetEnv(env, n);
        }
      }
      assert during == env;
    } else {
      var name := pairs[0].0;
      DistinctNamesTail(pairs);
      var during1 := match GetEnv(env, name) case None => during - {name} case Some(v) => during[name := v];
      assert name in during;
      forall n | n !in Names(pairs[1..])
        ensures GetEnv(during1, n) == GetEnv(env, n)
      {
        if n != name {
          assert n !in Names(pairs);
        }
      }
      forall i | 0 <= i < |pairs[1..]|
        ensures pairs[1..][i].0 in during1
      {
        assert pairs[1..][i] == pairs[i + 1];
        assert Names(pairs[1..])[i] == pairs[i + 1].0;
      }
      RestoredAfterEnter(env, during1, pairs[1..]);
    }
  }

  /** `__enter__` followed by `__exit__` leaves the environment as it was. */
  lemma EnterExitRoundTrip(env: map<string, string>, pairs: seq<(string, string)>, overwrite: bool)
    requires NoDuplicates(Names(pairs))
    ensures Restored(Entered(env, pairs, overwrite), Saved(env, pairs)) == (env, None)
  {
    EnteredValues(env, pairs, overwrite);
    var during := Entered(env, pairs, overwrite);
    forall n | n !in Names(pairs)
      ensures GetEnv(during, n) == GetEnv(env, n)
    {
    }
    RestoredAfterEnter(env, during, pairs);
  }

  /** The cases of the source's tests: new, kept, overwritten; and an empty value counts as unset. */
  lemma EnteredExamples(env: map<string, string>)
    ensures Entered(map[], [("var_123", "1")], false) == map["var_123" := "1"]
    ensures Entered(map["var_234" := "0"], [("var_234", "1")], false) == map["var_234" := "0"]
    ensures Entered(map["var_345" := "0"], [("var_345", "1")], true) == map["var_345" := "1"]
    ensures Entered(map["var_456" := ""], [("var_456", "1")], false) == map["var_456" := "1"]
    ensures Entered(env, [], false) == env
  {
  }

  /** `EnvironmentContext`, its `echo` output left out. */
  class EnvironmentContext {
    const overwrite: bool
    const contextEnvs: seq<(string, string)>
    var curEnvs: seq<(string, Option<string>)>

    constructor(environmentVariables: seq<(string, string)>, overwriteExisting: bool)
      requires NoDuplicates(Names(environmentVariables))
      ensures contextEnvs == environmentVariables && overwrite == overwriteExisting && curEnvs == []
    {
      contextEnvs := environmentVariables;
      overwrite := overwriteExisting;
      curEnvs := [];
    }

    /** Saves the current values of the managed names and sets the new ones. */
    method Enter(process: Process)
      requires NoDuplicates(Names(contextEnvs))
      modifies this, process
      ensures curEnvs == Saved(old(process.environ), contextEnvs)
      ensures process.environ == Entered(old(process.environ), contextEnvs, overwrite)
      ensures process.cwd == old(process.cwd) && process.directories == old(process.directories)
    {
      curEnvs := [];
      ghost var start := process.environ;
      EnteringStart(start, contextEnvs, overwrite);
      for i := 0 to |contextEnvs|
        invariant Entering(start, contextEnvs, overwrite, i, curEnvs, process.environ)
        invariant process.cwd == old(process.cwd) && process.directories == old(process.directories)
      {
        var name := contextEnvs[i].0;
        var value := contextEnvs[i].1;
        var current := GetEnv(process.environ, name);
        EnteringStep(start, contextEnvs, overwrite, i, curEnvs, process.environ);
        curEnvs := curEnvs + [(name, current)];
        if current.None? || current.value == "" || overwrite {
          process.environ := process.environ[name := value];
        }
      }
      EnteringEnd(start, contextEnvs, overwrite, curEnvs, process.environ);
    }

    /** Puts back every saved value, and removes the names that were unset; a name removed in between raises. */
    method Exit(process: Process) returns (r: Option<ExitError>)
      modifies process
      ensures (process.environ, r) == Restored(old(process.environ), curEnvs)
      ensures process.cwd == old(process.cwd) && process.directories == old(process.directories)
    {
      var i := 0;
      while i < |curEnvs|
        invariant 0 <= i <= |curEnvs|
        invariant Restored(old(process.environ), curEnvs) == Restored(process.environ, curEnvs[i..])
        invariant process.cwd == old(process.cwd) && process.directories == old(process.directories)
      {
        var (name, value) := curEnvs[i];
        assert curEnvs[i..][1..] == curEnvs[i + 1..];
        if value.None? {
          if name !in process.environ {
            return Some(KeyError(name));
          }
          process.environ := process.environ - {name};
        } else {
          process.environ := process.environ[name := value.value];
        }
        i := i + 1;
      }
      return None;
    }
  }

  /** The state of the loop of `__enter__` after the first `i` names. */
  ghost predicate Entering(start: map<string, string>, pairs: seq<(string, string)>, overwrite: bool, i: nat,
                           saved: seq<(string, Option<string>)>, env: map<string, string>)
  {
    NoDuplicates(Names(pairs)) && i <= |pairs| &&
    saved == Saved(start, pairs[..i]) &&
    Entered(start, pairs, overwrite) == Entered(env, pairs[i..], overwrite) &&
    forall k :: i <= k < |pairs| ==> GetEnv(env, pairs[k].0) == GetEnv(start, pairs[k].0)
  }

  lemma EnteringStart(start: map<string, string>, pairs: seq<(string, string)>, overwrite: bool)
    requires NoDuplicates(Names(pairs))
    ensures Entering(start, pairs, overwrite, 0, [], start)
  {
    assert pairs[..0] == [] && pairs[0..] == pairs;
  }

  /** One step of the loop: the name is saved, set if it overrides, and the rest of the names are untouched. */
  lemma EnteringStep(start: map<string, string>, pairs: seq<(string, string)>, overwrite: bool, i: nat,
                     saved: seq<(string, Option<string>)>, env: map<string, string>)
    requires Entering(start, pairs, overwrite, i, saved, env) && i < |pairs|
    ensures Entering(start, pairs, overwrite, i + 1, saved + [(pairs[i].0, GetEnv(env, pairs[i].0))],
      if Overrides(env, pairs[i].0, overwrite) then env[pairs[i].0 := pairs[i].1] else env)
  {
    var env' := if Overrides(env, pairs[i].0, overwrite) then env[pairs[i].0 := pairs[i].1] else env;
    EnterStep(start, pairs, i, GetEnv(env, pairs[i].0));
    assert pairs[i..][1..] == pairs[i + 1..];
    forall k | i + 1 <= k < |pairs|
      ensures GetEnv(env', pairs[k].0) == GetEnv(start, pairs[k].0)
    {
      assert Names(pairs)[k] == pairs[k].0 && Names(pairs)[i] == pairs[i].0;
    }
  }

  lemma EnteringEnd(start: map<string, string>, pairs: seq<(string, string)>, overwrite: bool,
                    saved: seq<(string, Option<string>)>, env: map<string, string>)
    requires Entering(start, pairs, overwrite, |pairs|, saved, env)
    ensures saved == Saved(start, pairs) && env == Entered(start, pairs, overwrite)
  {
    assert pairs[..|pairs|] == pairs && pairs[|pairs|..] == [];
  }

  lemma EnterStep(start: map<string, string>, pairs: seq<(string, string)>, i: nat, current: Option<string>)
    requires i < |pairs| && current == GetEnv(start, pairs[i].0)
    ensures Saved(start, pairs[..i + 1]) == Saved(start, pairs[..i]) + [(pairs[i].0, current)]
  {
    SavedAppend(start, pairs[..i], pairs[i]);
    assert pairs[..i] + [pairs[i]] == pairs[..i + 1];
  }

  lemma {:induction false} SavedAppend(env: map<string, string>, pairs: seq<(string, string)>, p: (string, string))
    ensures Saved(env, pairs + [p]) == Saved(env, pairs) + [(p.0, GetEnv(env, p.0))]
  {
    if pairs != [] {
      assert (pairs + [p])[1..] == pairs[1..] + [p];
      SavedAppend(env, pairs[1..], p);
    }
  }

  /** A `with` block over the environment that changes nothing itself: afterwards the environment is as before. */
  method WithEnvironment(process: Process, environmentVariables: seq<(string, string)>, overwriteExisting: bool)
    returns (inside: map<string, string>)
    requires NoDuplicates(Names(environmentVariables))
    modifies process
    ensures inside == Entered(old(process.environ), environmentVariables, overwriteExisting)
    ensures process.environ == old(process.environ)
  {
    var context := new EnvironmentContext(environmentVariables, overwriteExisting);
    context.Enter(process);
    inside := process.environ;
    var error := context.Exit(process);
    EnterExitRoundTrip(old(process.environ), environmentVariables, overwriteExisting);
  }

  /** `TemporaryWorkingDirectory`. */
  class TemporaryWorkingDirectory {
    const temporaryWorkingDir: string
    var currentWorkingDirectory: Option<string>

    /** The directory must exist; the source asserts it. */
    constructor(process: Process, directory: string)
      requires directory in process.directories
      ensures temporaryWorkingDir == directory && currentWorkingDirectory == None
    {
      temporaryWorkingDir := directory;
      currentWorkingDirectory := None;
    }

    method Enter(process: Process)
      modifies this, process
      ensures currentWorkingDirectory == Some(old(process.cwd)) && process.cwd == temporaryWorkingDir
      ensures process.environ == old(process.environ) && process.directories == old(process.directories)
    {
      currentWorkingDirectory := Some(process.cwd);
      process.cwd := temporaryWorkingDir;
    }

    /** Only after `Enter`: before it the saved directory is `None`, which `os.chdir` refuses. */
    method Exit(process: Process)
      requires currentWorkingDirectory.Some?
      modifies process
      ensures process.cwd == currentWorkingDirectory.value
      ensures process.environ == old(process.environ) && process.directories == old(process.directories)
    {
      process.cwd := currentWorkingDirectory.value;
    }
  }

  /** A `with` block in a temporary directory: inside, the directory is the temporary one; afterwards it is the original. */
  method WithWorkingDirectory(process: Process, directory: string) returns (inside: string)
    requires directory in process.directories
    modifies process
    ensures inside == directory
    ensures process.cwd == old(process.cwd) && process.environ == old(process.environ)
  {
    var context := new TemporaryWorkingDirectory(process, directory);
    context.Enter(process);
    inside := process.cwd;
    context.Exit(process);
  }
}
