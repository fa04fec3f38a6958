/**
  The install and self-update logic of the Camcookie app store
  (camcookie-appstore.py): `$HOME` expansion in catalog commands, the
  table of installed versions, and the decisions taken from it. Shell
  commands, dialogs and the catalog download are left to the caller: the
  user's answer and whether each command exits with status 0 are inputs.
*/
module AppStore {
  import opened Wrappers

  /** A JSON value found where the catalog holds a command: a string, or
      any other value, kept as its raw text. */
  datatype Value = Str(s: string) | NonStr(raw: string)

  /** One catalog entry, reduced to the fields the install logic reads. */
  datatype App = App(id: string, name: string, version: string, install: seq<Value>)

  /** The placeholder expanded in commands. */
  const HomeVar := "$HOME"

  /** The catalog id of the store itself. */
  const SelfId := "appstore"

  /** `p` occurs in `s` starting at index `i`. */
  predicate At(s: string, p: string, i: nat)
  {
    i + |p| <= |s| && s[i..i + |p|] == p
  }

  predicate Occurs(s: string, p: string)
  {
    exists i: nat :: i <= |s| && At(s, p, i)
  }

  /** Python's `str.replace` without a count: occurrences are found from
      the left, each is replaced and the scan resumes after it. */
  function ReplaceAll(s: string, pat: string, rep: string): (r: string)
    requires |pat| > 0
    ensures rep == pat ==> r == s
    decreases |s|
  {
    if |s| < |pat| then s
    else if s[..|pat|] == pat then
      assert s == s[..|pat|] + s[|pat|..];
      rep + ReplaceAll(s[|pat|..], pat, rep)
    else [s[0]] + ReplaceAll(s[1..], pat, rep)
  }

  /** A home directory as `os.path.expanduser` gives it: an absolute path,
      here also one without a `$`. */
  predicate ValidHome(home: string)
  {
    |home| > 0 && home[0] == '/' && '$' !in home
  }

  /** A string in which the pattern does not occur is left as it is. */
  lemma {:induction false} ReplaceUnchanged(s: string, pat: string, rep: string)
    requires |pat| > 0 && !Occurs(s, pat)
    ensures ReplaceAll(s, pat, rep) == s
    decreases |s|
  {
    if |s| >= |pat| {
      assert !At(s, pat, 0);
      forall i: nat | At(s[1..], pat, i)
        ensures At(s, pat, i + 1)
      {
        assert s[1..][i..i + |pat|] == s[i + 1..i + 1 + |pat|];
      }
      ReplaceUnchanged(s[1..], pat, rep);
      assert [s[0]] + s[1..] == s;
    }
  }

  /** A prefix of an expanded string that holds no `/` was already a prefix
      of the string before expansion: every replacement starts with `/`. */
  lemma {:induction false} PrefixFromSource(t: string, w: string, home: string)
    requires ValidHome(home) && '/' !in w
    ensures w <= ReplaceAll(t, HomeVar, home) ==> w <= t
    decreases |t|
  {
    if |w| > 0 && |t| >= |HomeVar| {
      if t[..|HomeVar|] == HomeVar {
        assert ReplaceAll(t, HomeVar, home)[0] == '/';
        assert w[0] in w;
      } else {
        var rest := ReplaceAll(t[1..], HomeVar, home);
        assert ReplaceAll(t, HomeVar, home) == [t[0]] + rest;
        PrefixFromSource(t[1..], w[1..], home);
        if w <= ReplaceAll(t, HomeVar, home) {
          assert w[1..] <= rest;
          assert w == [t[0]] + w[1..];
        }
      }
    }
  }

  /** With a valid home directory, expansion leaves no `$HOME` behind. */
  lemma {:induction false} NoHomeVariableLeft(s: string, home: string)
    requires ValidHome(home)
    ensures !Occurs(ReplaceAll(s, HomeVar, home), HomeVar)
    decreases |s|
  {
    var out := ReplaceAll(s, HomeVar, home);
    if |s| >= |HomeVar| {
      if s[..|HomeVar|] == HomeVar {
        var rest := ReplaceAll(s[|HomeVar|..], HomeVar, home);
        NoHomeVariableLeft(s[|HomeVar|..], home);
        assert out == home + rest;
        forall i: nat | i <= |out|
          ensures !At(out, HomeVar, i)
        {
          if i < |home| {
            assert out[i] == home[i];
            assert home[i] in home;
          } else if i + |HomeVar| <= |out| {
            assert out[i..i + |HomeVar|] == rest[i - |home|..i - |home| + |HomeVar|];
            assert !At(rest, HomeVar, i - |home|);
          }
        }
      } else {
        var rest := ReplaceAll(s[1..], HomeVar, home);
        NoHomeVariableLeft(s[1..], home);
        assert out == [s[0]] + rest;
        forall i: nat | i <= |out|
          ensures !At(out, HomeVar, i)
        {
          if i == 0 {
            PrefixFromSource(s[1..], "HOME", home);
            if |out| >= |HomeVar| {
              assert out[0..|HomeVar|] == [s[0]] + rest[..4];
              assert s[..|HomeVar|] == [s[0]] + s[1..][..4];
              assert rest[..4] == "HOME" ==> "HOME" <= rest;
              assert "HOME" <= s[1..] ==> s[1..][..4] == "HOME";
              assert s[0] == '$' ==> rest[..4] != "HOME";
              assert ([s[0]] + rest[..4])[1..] == rest[..4] && HomeVar[1..] == "HOME";
            }
            assert !At(out, HomeVar, 0);
          } else if i + |HomeVar| <= |out| {
            assert out[i..i + |HomeVar|] == rest[i - 1..i - 1 + |HomeVar|];
            assert !At(rest, HomeVar, i - 1);
          }
        }
      }
    }
  }

  /** `expand_home`: a string has every `$HOME` replaced by the home
      directory; any other value comes back unchanged. */
  function ExpandHome(v: Value, home: string): (r: Value)
    ensures v.NonStr? ==> r == v
    ensures v.Str? ==> r.Str?
    ensures v.Str? && !Occurs(v.s, HomeVar) ==> r == v
    ensures v.Str? && ValidHome(home) ==> !Occurs(r.s, HomeVar)
  {
    match v
    case NonStr(_) => v
    case Str(s) =>
      var r := Str(ReplaceAll(s, HomeVar, home));
      assert !Occurs(s, HomeVar) ==> r == v by {
        if !Occurs(s, HomeVar) {
          ReplaceUnchanged(s, HomeVar, home);
        }
      }
      assert ValidHome(home) ==> !Occurs(r.s, HomeVar) by {
        if ValidHome(home) {
          NoHomeVariableLeft(s, home);
        }
      }
      r
  }

  /** An occurrence at index i + 1 of a string is one at index i of its
      tail, so a prefix free of occurrences stays free when it loses its
      first character. */
  lemma NoMatchInTail(a: string, b: string, pat: string)
    requires |a| > 0
    requires forall i: nat :: i < |a| ==> !At(a + pat + b, pat, i)
    ensures forall i: nat :: i < |a| - 1 ==> !At(a[1..] + pat + b, pat, i)
  {
    var s := a + pat + b;
    assert s[1..] == a[1..] + pat + b;
    forall i: nat | i < |a| - 1
      ensures !At(a[1..] + pat + b, pat, i)
    {
      assert !At(s, pat, i + 1);
      if i + |pat| <= |s[1..]| {
        assert s[1..][i..i + |pat|] == s[i + 1..i + 1 + |pat|];
      }
    }
  }

  /** The leftmost occurrence of the pattern is replaced by `rep`, and the
      scan goes on after it: what comes before is kept as it is. */
  lemma {:induction false} ReplaceSplicesFirst(a: string, b: string, pat: string, rep: string)
    requires |pat| > 0
    requires forall i: nat :: i < |a| ==> !At(a + pat + b, pat, i)
    ensures ReplaceAll(a + pat + b, pat, rep) == a + rep + ReplaceAll(b, pat, rep)
    decreases |a|
  {
    var s := a + pat + b;
    if a == [] {
      assert s[..|pat|] == pat && s[|pat|..] == b;
    } else {
      assert !At(s, pat, 0);
      assert s[1..] == a[1..] + pat + b;
      assert ReplaceAll(s, pat, rep) == [a[0]] + ReplaceAll(a[1..] + pat + b, pat, rep);
      NoMatchInTail(a, b, pat);
      ReplaceSplicesFirst(a[1..], b, pat, rep);
      assert [a[0]] + (a[1..] + rep + ReplaceAll(b, pat, rep)) == a + rep + ReplaceAll(b, pat, rep);
    }
  }

  /** What `$HOME` becomes: in a command whose text before the first
      `$HOME` holds no `$`, that `$HOME` is replaced by the home directory,
      the text before it is kept and the text after it is expanded in turn. */
  lemma HomeReplacedByHome(a: string, b: string, home: string)
    requires '$' !in a
    ensures ExpandHome(Str(a + HomeVar + b), home) == Str(a + home + ExpandHome(Str(b), home).s)
  {
    forall i: nat | i < |a|
      ensures !At(a + HomeVar + b, HomeVar, i)
    {
      assert (a + HomeVar + b)[i] == a[i];
      assert a[i] in a;
    }
    ReplaceSplicesFirst(a, b, HomeVar, home);
  }

  /** `expand_list`: the same commands, in the same order, each expanded. */
  function ExpandList(cmds: seq<Value>, home: string): (r: seq<Value>)
    ensures |r| == |cmds|
    ensures forall i :: 0 <= i < |cmds| ==> r[i] == ExpandHome(cmds[i], home)
  {
    if cmds == [] then [] else [ExpandHome(cmds[0], home)] + ExpandList(cmds[1..], home)
  }

  /** Every one of the first `n` commands exits with status 0. */
  predicate AllExit0(exits0: nat -> bool, n: nat)
  {
    forall j :: 0 <= j < n ==> exits0(j)
  }

  /** The index of the first command from `from` on that fails, or `n`
      when none does. */
  function FirstFailure(exits0: nat -> bool, from: nat, n: nat): (f: nat)
    requires from <= n
    decreases n - from
    ensures from <= f <= n
    ensures forall j :: from <= j < f ==> exits0(j)
    ensures f < n ==> !exits0(f)
  {
    if from == n || !exits0(from) then from else FirstFailure(exits0, from + 1, n)
  }

  /** How many of `n` commands run: all of them, or up to and including
      the first that fails. */
  function Attempted(exits0: nat -> bool, n: nat): nat
  {
    var f := FirstFailure(exits0, 0, n);
    if f < n then f + 1 else n
  }

  /** The loop running the install commands with `check=True`: the first
      command that fails raises and ends the run. */
  method RunCommands(cmds: seq<Value>, exits0: nat -> bool) returns (executed: seq<Value>, ok: bool)
    ensures ok <==> AllExit0(exits0, |cmds|)
    ensures executed == cmds[..Attempted(exits0, |cmds|)]
  {
    executed := [];
    ok := true;
    var i := 0;
    while i < |cmds| && ok
      invariant 0 <= i <= |cmds|
      invariant forall j :: 0 <= j < i ==> exits0(j)
      invariant ok ==> executed == cmds[..i]
      invariant !ok ==> i < |cmds| && !exits0(i) && executed == cmds[..i + 1]
      decreases |cmds| - i, ok
    {
      executed := executed + [cmds[i]];
      if exits0(i) {
        i := i + 1;
      } else {
        ok := false;
      }
    }
  }

  /** `check_self_update`'s search: the index of the first catalog entry
      from `from` on whose id is `id`. */
  function FirstWithId(apps: seq<App>, id: string, from: nat): (k: Option<nat>)
    requires from <= |apps|
    decreases |apps| - from
    ensures k.Some? ==> from <= k.value < |apps| && apps[k.value].id == id
    ensures k.Some? ==> forall j :: from <= j < k.value ==> apps[j].id != id
    ensures k.None? ==> forall j :: from <= j < |apps| ==> apps[j].id != id
  {
    if from == |apps| then None
    else if apps[from].id == id then Some(from)
    else FirstWithId(apps, id, from + 1)
  }

  /** The search loop of `check_self_update`, which stops at the first
      entry of the store itself. */
  method FindSelf(apps: seq<App>) returns (entry: Option<App>)
    ensures entry.None? <==> forall j :: 0 <= j < |apps| ==> apps[j].id != SelfId
    ensures entry.Some? ==>
      FirstWithId(apps, SelfId, 0).Some? && entry.value == apps[FirstWithId(apps, SelfId, 0).value]
  {
    entry := None;
    var i := 0;
    while i < |apps|
      invariant 0 <= i <= |apps|
      invariant FirstWithId(apps, SelfId, i) == FirstWithId(apps, SelfId, 0)
    {
      if apps[i].id == SelfId {
        entry := Some(apps[i]);
        return;
      }
      i := i + 1;
    }
  }

  /** What `check_self_update` ends in: no entry of the store in the
      catalog, the installed store is current, the update ran and the
      program restarts, or an update command failed and the program exits
      with status 1. */
  datatype SelfUpdate = NoEntry | UpToDate | Restart | Exit

  /** The table of installed versions (`local_versions`). */
  class Store {
    var localVersions: map<string, string>

    /** The table as loaded at start-up. */
    constructor(loaded: map<string, string>)
      ensures localVersions == loaded
    {
      localVersions := loaded;
    }

    /** The version-recording part of `install_app`: the expanded commands
        run in order, and the version is recorded only when every one of
        them exits with status 0. */
    method InstallApp(app: App, home: string, exits0: nat -> bool) returns (executed: seq<Value>, ok: bool)
      modifies this
      ensures ok <==> AllExit0(exits0, |app.install|)
      ensures executed == ExpandList(app.install, home)[..Attempted(exits0, |app.install|)]
      ensures ok ==> localVersions == old(localVersions)[app.id := app.version]
      ensures !ok ==> localVersions == old(localVersions)
    {
      var cmds := ExpandList(app.install, home);
      executed, ok := RunCommands(cmds, exits0);
      if ok {
        localVersions := localVersions[app.id := app.version];
      }
    }

    /** `handle_install`: no recorded version installs; the same version
        does nothing; a different version asks, and installs only on yes.
        Afterwards the app is recorded at the catalog's version exactly when
        it already was or an install ran to the end. */
    method HandleInstall(app: App, home: string, yes: bool, exits0: nat -> bool)
      returns (asked: bool, attempted: bool)
      modifies this
      ensures asked <==> app.id in old(localVersions) && old(localVersions)[app.id] != app.version
      ensures attempted <==> app.id !in old(localVersions) || (asked && yes)
      ensures !attempted ==> localVersions == old(localVersions)
      ensures attempted && AllExit0(exits0, |app.install|) ==>
        localVersions == old(localVersions)[app.id := app.version]
      ensures attempted && !AllExit0(exits0, |app.install|) ==> localVersions == old(localVersions)
      ensures (app.id in localVersions && localVersions[app.id] == app.version) <==>
        (app.id in old(localVersions) && old(localVersions)[app.id] == app.version)
        || (attempted && AllExit0(exits0, |app.install|))
    {
      asked, attempted := false, false;
      if app.id !in localVersions {
        attempted := true;
        var _, _ := InstallApp(app, home, exits0);
        return;
      }
      if localVersions[app.id] == app.version {
        return;
      }
      asked := true;
      if yes {
        attempted := true;
        var _, _ := InstallApp(app, home, exits0);
      }
    }

    /** The decision part of `check_self_update`: the first catalog entry of
        the store is compared with the recorded `appstore` version (a
        missing record counts as different); on a difference its expanded
        commands run, and the new version is recorded only if all of them
        succeed. */
    method CheckSelfUpdate(apps: seq<App>, home: string, exits0: nat -> bool)
      returns (outcome: SelfUpdate, executed: seq<Value>)
      modifies this
      ensures FirstWithId(apps, SelfId, 0).None? ==>
        outcome == NoEntry && executed == [] && localVersions == old(localVersions)
      ensures FirstWithId(apps, SelfId, 0).Some? ==>
        var e := apps[FirstWithId(apps, SelfId, 0).value];
        var current := SelfId in old(localVersions) && old(localVersions)[SelfId] == e.version;
        && (outcome == UpToDate <==> current)
        && (outcome == Restart <==> !current && AllExit0(exits0, |e.install|))
        && (outcome == Exit <==> !current && !AllExit0(exits0, |e.install|))
        && executed == (if current then [] else ExpandList(e.install, home)[..Attempted(exits0, |e.install|)])
        && localVersions == (if outcome == Restart then old(localVersions)[SelfId := e.version] else old(localVersions))
    {
      executed := [];
      var entry := FindSelf(apps);
      if entry.None? {
        outcome := NoEntry;
        return;
      }
      var e := entry.value;
      if SelfId in localVersions && localVersions[SelfId] == e.version {
        outcome := UpToDate;
        return;
      }
      var ok;
      executed, ok := RunCommands(ExpandList(e.install, home), exits0);
      if ok {
        localVersions := localVersions[SelfId := e.version];
        outcome := Restart;
      } else {
        outcome := Exit;
      }
    }
  }
}
