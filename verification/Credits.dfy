/** The runtime dependencies named in the credits: a worklist over installed packages. */
module Credits {

  import opened Results

  // ---------------------------------------------------------------- package names

  predicate IsSeparator(c: char) {
    c == '-' || c == '_' || c == '.'
  }

  function DropSeparators(s: string): (r: string)
    ensures |r| <= |s|
    ensures r == "" || !IsSeparator(r[0])
  {
    if s == "" || !IsSeparator(s[0]) then s else DropSeparators(s[1..])
  }

  /** Every run of separators becomes one dash. */
  function Collapse(s: string): string
    decreases |s|
  {
    if s == "" then ""
    else if IsSeparator(s[0]) then "-" + Collapse(DropSeparators(s[1..]))
    else [s[0]] + Collapse(s[1..])
  }

  function LowerChar(c: char): char {
    if 'A' <= c <= 'Z' then c - 'A' + 'a' else c
  }

  function Lower(s: string): (r: string)
    ensures |r| == |s|
    ensures forall i :: 0 <= i < |s| ==> r[i] == LowerChar(s[i])
  {
    if s == "" then "" else [LowerChar(s[0])] + Lower(s[1..])
  }

  function NormalizeName(name: string): string {
    Lower(Collapse(name))
  }

  /** A name in normal form: dashes only, never two together, no capitals. */
  predicate IsNormal(name: string) {
    && (forall i :: 0 <= i < |name| ==> name[i] != '_' && name[i] != '.' && !('A' <= name[i] <= 'Z'))
    && (forall i :: 0 < i < |name| ==> name[i - 1] == '-' ==> name[i] != '-')
  }

  predicate SingleDashes(s: string) {
    && (forall i :: 0 <= i < |s| ==> s[i] != '_' && s[i] != '.')
    && (forall i :: 0 < i < |s| ==> s[i - 1] == '-' ==> s[i] != '-')
  }

  lemma {:induction false} CollapseForm(s: string)
    ensures SingleDashes(Collapse(s))
    ensures s != "" && !IsSeparator(s[0]) ==> Collapse(s) != "" && Collapse(s)[0] == s[0]
    ensures s == "" <==> Collapse(s) == ""
    decreases |s|
  {
    if s == "" {
    } else if IsSeparator(s[0]) {
      CollapseForm(DropSeparators(s[1..]));
    } else {
      CollapseForm(s[1..]);
    }
  }

  lemma {:induction false} CollapseFixed(s: string)
    requires SingleDashes(s)
    ensures Collapse(s) == s
    decreases |s|
  {
    if s != "" {
      assert forall i :: 0 <= i < |s| - 1 ==> s[1..][i] == s[i + 1];
      assert SingleDashes(s[1..]);
      assert IsSeparator(s[0]) ==> DropSeparators(s[1..]) == s[1..];
      CollapseFixed(s[1..]);
      assert s == [s[0]] + s[1..];
    }
  }

  /** Normalisation lands in normal form and leaves normal forms alone, so it is idempotent. */
  lemma NormalFormExact(name: string)
    ensures IsNormal(NormalizeName(name))
    ensures NormalizeName(name) == name <==> IsNormal(name)
    ensures NormalizeName(NormalizeName(name)) == NormalizeName(name)
  {
    NormalFormReached(name);
    NormalFormKept(NormalizeName(name));
    if IsNormal(name) {
      NormalFormKept(name);
    }
  }

  lemma NormalFormReached(name: string)
    ensures IsNormal(NormalizeName(name))
  {
    hide Collapse;
    CollapseForm(name);
  }

  lemma NormalFormKept(name: string)
    requires IsNormal(name)
    ensures NormalizeName(name) == name
  {
    hide Collapse;
    CollapseFixed(name);
    assert Lower(name) == name;
  }

  const CAPITALS := "ABCDEFGHIJKLMNOPQRSTUVWXYZ"
  const SMALLS := "abcdefghijklmnopqrstuvwxyz"

  /** Capitals become the small letters of the same place in the alphabet; nothing else changes. */
  lemma LowerCharExact(c: char, i: nat)
    requires i < 26
    ensures c == CAPITALS[i] ==> LowerChar(c) == SMALLS[i]
    ensures (forall k :: 0 <= k < 26 ==> c != CAPITALS[k]) ==> LowerChar(c) == c
  {
    Capitals(i);
    if 'A' <= c <= 'Z' {
      Capitals((c - 'A') as nat);
    }
  }

  lemma Capitals(i: nat)
    requires i < 26
    ensures CAPITALS[i] == 'A' + i as char && SMALLS[i] == 'a' + i as char
  {
  }

  /**
   * The rules that determine every normalised name: other characters are lowered one by one, and a run of
   * separators counts as one dash, wherever it stands.
   */
  lemma NormalizeByRules(c: char, rest: string)
    ensures NormalizeName("") == ""
    ensures !IsSeparator(c) ==> NormalizeName([c] + rest) == [LowerChar(c)] + NormalizeName(rest)
    ensures IsSeparator(c) && (rest == "" || !IsSeparator(rest[0])) ==>
        NormalizeName([c] + rest) == "-" + NormalizeName(rest)
    ensures IsSeparator(c) && rest != "" && IsSeparator(rest[0]) ==> NormalizeName([c] + rest) == NormalizeName(rest)
  {
    assert ([c] + rest)[1..] == rest;
    var head := if IsSeparator(c) then "-" else [c];
    if IsSeparator(c) && rest != "" && IsSeparator(rest[0]) {
      assert DropSeparators(rest) == DropSeparators(rest[1..]);
    } else {
      LowerNext(head[0], Collapse(rest));
    }
  }

  lemma LowerNext(c: char, rest: string)
    ensures Lower([c] + rest) == [LowerChar(c)] + Lower(rest)
  {
    assert ([c] + rest)[1..] == rest;
  }

  // ---------------------------------------------------------------- dependencies

  /** `marker` is the value of the environment marker, when the requirement has one. */
  datatype Requirement = Requirement(name: string, marker: Option<bool>)

  datatype Distribution = Distribution(version: string, requirements: Option<seq<Requirement>>)

  predicate IsSkipped(r: Requirement) {
    r.marker.Some? && !r.marker.value
  }

  function RequirementsOf(d: Distribution): seq<Requirement> {
    match d.requirements
    case Some(requirements) => requirements
    case None => []
  }

  /** `user` is installed and requires `used` without a marker that rules it out. */
  predicate Needs(installed: map<string, Distribution>, user: string, used: string) {
    user in installed &&
    installed[user].requirements.Some? &&
    exists r :: r in installed[user].requirements.value && r.marker != Some(false) && NormalizeName(r.name) == used
  }

  /** A chain of requirements that starts at a direct dependency. */
  predicate IsChain(installed: map<string, Distribution>, direct: set<string>, chain: seq<string>) {
    && chain != [] && chain[0] in direct
    && forall i :: 0 < i < |chain| ==> Needs(installed, chain[i - 1], chain[i])
  }

  ghost predicate Reachable(installed: map<string, Distribution>, direct: set<string>, name: string) {
    exists chain :: IsChain(installed, direct, chain) && chain[|chain| - 1] == name
  }

  lemma DirectReachable(installed: map<string, Distribution>, direct: set<string>, name: string)
    requires name in direct
    ensures Reachable(installed, direct, name)
  {
    assert IsChain(installed, direct, [name]);
  }

  lemma NeededReachable(installed: map<string, Distribution>, direct: set<string>, user: string, used: string)
    requires Reachable(installed, direct, user) && Needs(installed, user, used)
    ensures Reachable(installed, direct, used)
  {
    hide Needs;
    var chain :| IsChain(installed, direct, chain) && chain[|chain| - 1] == user;
    var longer := chain + [used];
    assert IsChain(installed, direct, longer) by {
      forall i | 0 < i < |longer| ensures Needs(installed, longer[i - 1], longer[i]) {
        if i < |chain| {
          assert longer[i - 1] == chain[i - 1] && longer[i] == chain[i];
        }
      }
    }
    assert longer[|longer| - 1] == used;
  }

  /** A set that holds the direct dependencies and all needs of its members holds everything reachable. */
  ghost predicate IsClosed(installed: map<string, Distribution>, direct: set<string>, names: set<string>) {
    direct <= names && forall user, used :: user in names && Needs(installed, user, used) ==> used in names
  }

  lemma {:induction false} ChainStaysInside(installed: map<string, Distribution>, direct: set<string>,
                                             names: set<string>, chain: seq<string>)
    requires IsClosed(installed, direct, names) && IsChain(installed, direct, chain)
    ensures chain[|chain| - 1] in names
  {
    hide Needs;
    if |chain| > 1 {
      var front := chain[..|chain| - 1];
      assert forall i :: 0 <= i < |front| ==> front[i] == chain[i];
      ChainStaysInside(installed, direct, names, front);
      assert Needs(installed, chain[|chain| - 2], chain[|chain| - 1]);
    }
  }

  lemma ClosedHoldsReachable(installed: map<string, Distribution>, direct: set<string>, names: set<string>)
    requires IsClosed(installed, direct, names)
    ensures forall name :: Reachable(installed, direct, name) ==> name in names
  {
    hide IsClosed;
    forall name | Reachable(installed, direct, name)
      ensures name in names
    {
      var chain :| IsChain(installed, direct, chain) && chain[|chain| - 1] == name;
      ChainStaysInside(installed, direct, names, chain);
    }
  }

  /** The names of a set in some order; the order does not matter to the closure. */
  method Listed(names: set<string>) returns (list: seq<string>)
    ensures forall name :: name in list <==> name in names
  {
    list := [];
    var rest := names;
    while rest != {}
      invariant rest <= names
      invariant forall name :: name in list <==> name in names - rest
      decreases rest
    {
      var name :| name in rest;
      list := list + [name];
      rest := rest - {name};
    }
  }

  /**
   * The packages left to visit once `user` is resolved: every unskipped requirement that is not resolved
   * yet, repeats included.
   */
  method QueueRequirements(installed: map<string, Distribution>, user: string, resolved: map<string, string>,
      pending: seq<string>)
    returns (queue: seq<string>)
    requires user in installed
    ensures forall name :: name in queue <==> name in pending || (name !in resolved && Needs(installed, user, name))
  {
    queue := pending;
    var requirements := RequirementsOf(installed[user]);
    for i := 0 to |requirements|
      invariant forall name :: name in pending ==> name in queue
      invariant forall name :: name in queue ==> name in pending || (name !in resolved && Needs(installed, user, name))
      invariant forall k :: 0 <= k < i && !IsSkipped(requirements[k]) ==>
                  NormalizeName(requirements[k].name) in queue || NormalizeName(requirements[k].name) in resolved
    {
      var requirement := requirements[i];
      if IsSkipped(requirement) {
        continue;
      }
      var name := NormalizeName(requirement.name);
      assert Needs(installed, user, name);
      if name !in resolved {
        queue := queue + [name];
      }
    }
  }

  /**
   * Terminates on every graph, cycles included. It succeeds exactly when every reachable package is
   * installed, and then maps exactly the reachable packages to their installed versions; it fails on a
   * reachable package that is not installed.
   */
  method CollectRuntimeDependencyClosure(direct: set<string>, installed: map<string, Distribution>)
    returns (r: Result<map<string, string>, string>)
    ensures r.Ok? <==> forall name :: Reachable(installed, direct, name) ==> name in installed
    ensures r.Ok? ==> forall name :: name in r.value <==> Reachable(installed, direct, name)
    ensures r.Ok? ==> forall name :: name in r.value ==> name in installed && r.value[name] == installed[name].version
    ensures r.Err? ==> Reachable(installed, direct, r.error) && r.error !in installed
  {
    hide Needs, IsChain, Reachable, NormalizeName;
    var resolved: map<string, string> := map[];
    var pending := Listed(direct);
    forall name | name in direct ensures Reachable(installed, direct, name) {
      DirectReachable(installed, direct, name);
    }
    while pending != []
      invariant resolved.Keys <= installed.Keys
      invariant forall name :: name in resolved ==> resolved[name] == installed[name].version
      invariant forall name :: name in resolved || name in pending ==> Reachable(installed, direct, name)
      invariant forall name :: name in direct ==> name in resolved || name in pending
      invariant forall user, used :: user in resolved && Needs(installed, user, used) ==>
          used in resolved || used in pending
      decreases installed.Keys - resolved.Keys, |pending|
    {
      var last := |pending| - 1;
      var user, rest := pending[last], pending[..last];
      assert pending == rest + [user];
      pending := rest;
      if user in resolved {
        continue;
      }
      if user !in installed {
        return Err(user);
      }
      assert user in installed.Keys - resolved.Keys;
      resolved := resolved[user := installed[user].version];
      pending := QueueRequirements(installed, user, resolved, pending);
      forall used | used in pending ensures Reachable(installed, direct, used) {
        if used !in rest {
          NeededReachable(installed, direct, user, used);
        }
      }
    }
    assert IsClosed(installed, direct, resolved.Keys);
    ClosedHoldsReachable(installed, direct, resolved.Keys);
    r := Ok(resolved);
  }
}
