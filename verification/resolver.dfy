/** Locating the code-server executable: an environment override, then the
    package's own `bin` directory, then the search path, then well-known
    installation directories; the first strategy that answers wins. */
module Resolver {
  import opened Results
  import PosixPath

  /** The host as the resolver sees it. `codeserverBin` is the value of the
      CODESERVER_BIN variable (read once; the plugin reads it twice but nothing
      can change it in between), `here` the package's installation directory,
      `existing` the paths for which a file exists, and `onSearchPath` the
      program names the system search (`which`) resolves. */
  datatype Env = Env(
    codeserverBin: Option<string>,
    here: string,
    existing: set<string>,
    onSearchPath: set<string>)

  /** The raised "Could not find <prog> in PATH" error. */
  datatype NotFound = NotFound(prog: string)

  /** `m` is a not-found message for `prog`: the program's name sits between
      the fixed prefix and suffix. */
  predicate NamesProgram(m: string, prog: string) {
    && |m| == |"Could not find "| + |prog| + |" in PATH"|
    && m[..|"Could not find "|] == "Could not find "
    && m[|"Could not find "|..|"Could not find "| + |prog|] == prog
    && m[|"Could not find "| + |prog|..] == " in PATH"
  }

  function Message(e: NotFound): (m: string)
    ensures NamesProgram(m, e.prog)
  {
    "Could not find " + e.prog + " in PATH"
  }

  const KnownLocationDir := "/opt/codeserver/bin"

  /** `<here>/bin/<prog>`. */
  function BundledPath(here: string, prog: string): string {
    PosixPath.Join(PosixPath.Join(here, "bin"), prog)
  }

  /** The list of well-known installation paths consulted last, in order. */
  function KnownLocations(prog: string): seq<string> {
    [PosixPath.Join(KnownLocationDir, prog)]
  }

  /** The first path of `paths` that exists, if any. */
  function FirstExisting(paths: seq<string>, existing: set<string>): (r: Option<string>)
    ensures r.None? <==> forall k | 0 <= k < |paths| :: paths[k] !in existing
    ensures r.Some? ==> exists k | 0 <= k < |paths| :: paths[k] == r.value && r.value in existing
                          && forall j | 0 <= j < k :: paths[j] !in existing
  {
    if |paths| == 0 then None
    else if paths[0] in existing then Some(paths[0])
    else
      var r := FirstExisting(paths[1..], existing);
      assert forall k | 1 <= k < |paths| :: paths[k] == paths[1..][k - 1];
      r
  }

  /** The executable for `prog`, or the not-found error. */
  function Resolve(env: Env, prog: string): (r: Result<string, NotFound>)
    ensures env.codeserverBin.Some? ==> r == Success(env.codeserverBin.value)
    ensures r.Failure? <==>
              && env.codeserverBin.None?
              && BundledPath(env.here, prog) !in env.existing
              && prog !in env.onSearchPath
              && forall p | p in KnownLocations(prog) :: p !in env.existing
    ensures r.Failure? ==> r.error == NotFound(prog)
    ensures r.Success? ==>
              || Some(r.value) == env.codeserverBin
              || (r.value == BundledPath(env.here, prog) && r.value in env.existing)
              || (r.value == prog && prog in env.onSearchPath)
              || (r.value in KnownLocations(prog) && r.value in env.existing)
  {
    if env.codeserverBin.Some? then Success(env.codeserverBin.value)
    else if BundledPath(env.here, prog) in env.existing then Success(BundledPath(env.here, prog))
    else if prog in env.onSearchPath then Success(prog)
    else match FirstExisting(KnownLocations(prog), env.existing)
      case Some(p) => Success(p)
      case None => Failure(NotFound(prog))
  }

  // ---------------------------------------------------------------------
  // Reference definition: each strategy judged on its own, first answer wins

  /** What each of the four strategies would answer by itself, in lookup order. */
  function Strategies(env: Env, prog: string): (s: seq<Option<string>>)
    ensures |s| == 4
  {
    var bundled := BundledPath(env.here, prog);
    [ env.codeserverBin,
      if bundled in env.existing then Some(bundled) else None,
      if prog in env.onSearchPath then Some(prog) else None,
      FirstExisting(KnownLocations(prog), env.existing) ]
  }

  /** The first answer in `answers`. */
  function FirstAnswer(answers: seq<Option<string>>): (r: Option<string>)
    ensures r.None? <==> forall k | 0 <= k < |answers| :: answers[k].None?
  {
    if |answers| == 0 then None
    else if answers[0].Some? then answers[0]
    else
      var r := FirstAnswer(answers[1..]);
      assert forall k | 1 <= k < |answers| :: answers[k] == answers[1..][k - 1];
      r
  }

  /** The answer at position `k`, when every earlier one is silent, is the first answer. */
  lemma {:induction false} FirstAnswerAt(answers: seq<Option<string>>, k: nat)
    requires k < |answers| && answers[k].Some?
    requires forall j | 0 <= j < k :: answers[j].None?
    ensures FirstAnswer(answers) == answers[k]
  {
    if k > 0 {
      assert answers[1..][k - 1] == answers[k];
      FirstAnswerAt(answers[1..], k - 1);
    }
  }

  /** Precedence: when strategy `k` answers and no earlier one does, the
      resolver returns strategy `k`'s answer. */
  lemma StrategyPrecedence(env: Env, prog: string, k: nat)
    requires k < 4 && Strategies(env, prog)[k].Some?
    requires forall j | 0 <= j < k :: Strategies(env, prog)[j].None?
    ensures Resolve(env, prog) == Success(Strategies(env, prog)[k].value)
  {
    var s := Strategies(env, prog);
    if k == 1 {
      assert s[0].None?;
    } else if k == 2 {
      assert s[0].None? && s[1].None?;
    } else if k == 3 {
      assert s[0].None? && s[1].None? && s[2].None?;
    }
  }

  /** When no strategy answers, the resolver fails naming the program. */
  lemma NoStrategyAnswers(env: Env, prog: string)
    requires forall j | 0 <= j < 4 :: Strategies(env, prog)[j].None?
    ensures Resolve(env, prog) == Failure(NotFound(prog))
  {
    var s := Strategies(env, prog);
    assert s[0].None? && s[1].None? && s[2].None? && s[3].None?;
    assert BundledPath(env.here, prog) !in env.existing;
    assert prog !in env.onSearchPath;
    assert FirstExisting(KnownLocations(prog), env.existing).None?;
  }

  /** The resolver is "first answering strategy, else not found". */
  lemma ResolveIsFirstStrategy(env: Env, prog: string)
    ensures FirstAnswer(Strategies(env, prog)).Some? ==>
              Resolve(env, prog) == Success(FirstAnswer(Strategies(env, prog)).value)
    ensures FirstAnswer(Strategies(env, prog)).None? ==>
              Resolve(env, prog) == Failure(NotFound(prog))
  {
    var s := Strategies(env, prog);
    var k: nat := 0;
    while k < 4 && s[k].None?
      invariant k <= 4
      invariant forall j | 0 <= j < k :: s[j].None?
    {
      k := k + 1;
    }
    if k < 4 {
      FirstAnswerAt(s, k);
      StrategyPrecedence(env, prog, k);
    } else {
      NoStrategyAnswers(env, prog);
    }
  }

  /** Strategies after the first answering one are never consulted: two hosts
      that agree on strategies up to and including an answering one `k`
      resolve `prog` identically, whatever they say about later strategies. */
  lemma LaterStrategiesIgnored(env1: Env, env2: Env, prog: string, k: nat)
    requires k < 4 && Strategies(env1, prog)[k].Some?
    requires forall j | 0 <= j <= k :: Strategies(env1, prog)[j] == Strategies(env2, prog)[j]
    ensures Resolve(env1, prog) == Resolve(env2, prog)
  {
    var s1, s2 := Strategies(env1, prog), Strategies(env2, prog);
    var i: nat := 0;
    while s1[i].None?
      invariant i <= k
      invariant forall j | 0 <= j < i :: s1[j].None? && s2[j].None?
      decreases k - i
    {
      i := i + 1;
    }
    StrategyPrecedence(env1, prog, i);
    StrategyPrecedence(env2, prog, i);
  }

  /** When the override is unset, the bundled path is missing and `which`
      finds the program, the bare program name is returned, not a resolved path. */
  lemma SearchPathReturnsBareName(env: Env, prog: string)
    requires env.codeserverBin.None? && BundledPath(env.here, prog) !in env.existing
    requires prog in env.onSearchPath
    ensures Resolve(env, prog) == Success(prog)
  {
  }

  /** The concrete candidate paths for the program "code-server" under an
      installation directory `here` that does not end in '/'. */
  lemma CodeServerPaths(here: string)
    requires |here| > 0 && !PosixPath.EndsWithSeparator(here)
    ensures BundledPath(here, "code-server") == here + "/bin/code-server"
    ensures KnownLocations("code-server") == ["/opt/codeserver/bin/code-server"]
  {
    PosixPath.JoinRelative(here, "bin");
    PosixPath.JoinRelative(here + "/bin", "code-server");
    PosixPath.JoinRelative(KnownLocationDir, "code-server");
    assert KnownLocationDir + "/" + "code-server" == "/opt/codeserver/bin/code-server";
  }
}
