/** Assembling the launch record handed to the notebook server's proxy
    framework: the code-server command line (with the `{port}` placeholder the
    framework fills in), the path mapper bound to the freshly generated
    password, and fixed metadata. */
module Setup {
  import opened Results
  import Resolver
  import UrlMapper
  import Password
  import PosixPath
  import Query

  const Program := "code-server"
  const PortPlaceholder := "{port}"
  const BindAddress := "--bind-addr=0.0.0.0:" + PortPlaceholder
  const StartupTimeout := 90
  const LauncherTitle := "VS Code (code-server)"
  const IconFile := "icons/code-server-logo.svg"

  /** Everything after the executable on the command line, in order. */
  const Flags := ["--auth=none", "--disable-telemetry", "--disable-update-check", BindAddress, "--verbose"]

  datatype LauncherEntry = LauncherEntry(enabled: bool, iconPath: string, title: string)

  /** The launch record. The plugin's `mappath` entry is a function reading the
      process-wide password on every call; here the record carries that password and
      `MapRequest` is the mapper bound to it. */
  datatype ServerProcess = ServerProcess(
    environment: map<string, string>,
    command: seq<string>,
    password: string,
    absoluteUrl: bool,
    timeout: nat,
    newBrowserTab: bool,
    launcherEntry: LauncherEntry)

  /** The two ways setup raises; both are FileNotFoundError in the plugin. */
  datatype SetupError = PasswordFileFailed | ExecutableMissing(cause: Resolver.NotFound)

  /** The raised message. A password-file failure is told apart from a
      missing executable by its message alone, and a missing executable's
      message names the program. */
  function Message(e: SetupError): (m: string)
    ensures e.PasswordFileFailed? <==> m == "Passwd generation in temp file FAILED"
    ensures e.ExecutableMissing? ==> Resolver.NamesProgram(m, e.cause.prog)
  {
    match e
    case PasswordFileFailed => "Passwd generation in temp file FAILED"
    case ExecutableMissing(cause) => Resolver.Message(cause)
  }

  predicate OccursAt(s: string, part: string, i: nat) {
    i + |part| <= |s| && s[i..i + |part|] == part
  }

  predicate Contains(s: string, part: string) {
    exists i: nat | i <= |s| :: OccursAt(s, part, i)
  }

  /** The code-server command line for executable `exe`. */
  function Command(exe: string): (cmd: seq<string>)
    ensures |cmd| == 6 && cmd[0] == exe
    ensures "--auth=none" in cmd[1..]
    ensures forall i | 1 <= i < |cmd| :: |cmd[i]| > 2 && cmd[i][..2] == "--"
    ensures "--bind-addr=" <= cmd[4] && Contains(cmd[4], PortPlaceholder)
    ensures cmd == [exe, "--auth=none", "--disable-telemetry", "--disable-update-check",
                    "--bind-addr=0.0.0.0:{port}", "--verbose"]
  {
    var cmd := [exe] + Flags;
    assert BindAddress == "--bind-addr=0.0.0.0:{port}";
    assert OccursAt(cmd[4], PortPlaceholder, 20);
    cmd
  }

  /** The flags do not depend on which executable was found. */
  lemma CommandFlagsFixed(exe1: string, exe2: string)
    ensures Command(exe1)[1..] == Command(exe2)[1..]
  {
  }

  /** The launch record for a host `env`, the generated `password`, and whether
      writing the password file succeeded. The password file is written before
      the executable is looked up, so its failure is the one reported when
      both would fail. */
  function Assemble(env: Resolver.Env, password: string, passwordFileWritten: bool)
    : (r: Result<ServerProcess, SetupError>)
    ensures r.Failure? <==> !passwordFileWritten || Resolver.Resolve(env, Program).Failure?
    ensures !passwordFileWritten ==> r == Failure(PasswordFileFailed)
    ensures passwordFileWritten && Resolver.Resolve(env, Program).Failure? ==>
              r == Failure(ExecutableMissing(Resolver.NotFound(Program)))
    ensures r.Success? ==>
              && r.value.command == Command(Resolver.Resolve(env, Program).value)
              && r.value.password == password
              && r.value.environment == map[]
              && !r.value.absoluteUrl
              && r.value.timeout == 90
              && r.value.newBrowserTab
              && r.value.launcherEntry.enabled
              && r.value.launcherEntry.title == "VS Code (code-server)"
  {
    if !passwordFileWritten then Failure(PasswordFileFailed)
    else
      match Resolver.Resolve(env, Program)
      case Failure(e) => Failure(ExecutableMissing(e))
      case Success(exe) =>
        Success(ServerProcess(
          environment := map[],
          command := Command(exe),
          password := password,
          absoluteUrl := false,
          timeout := StartupTimeout,
          newBrowserTab := true,
          launcherEntry := LauncherEntry(true, PosixPath.Join(env.here, IconFile), LauncherTitle)))
  }

  /** The record's path mapper: with the password bound at setup, it never
      raises. */
  function MapRequest(p: ServerProcess, path: string, user: string): (r: string)
    ensures UrlMapper.MapPath(path, user, Some(p.password)) == Success(r)
    ensures !UrlMapper.IsLandingRequest(path) ==> r == path
  {
    UrlMapper.MapPath(path, user, Some(p.password)).value
  }

  /** Setup: generate the password (assigned before anything can fail), then
      assemble the record. */
  method SetupCodeserver(env: Resolver.Env, passwordFileWritten: bool)
    returns (password: string, r: Result<ServerProcess, SetupError>)
    ensures Password.IsPassword(password)
    ensures r == Assemble(env, password, passwordFileWritten)
  {
    ghost var draws;
    password, draws := Password.GeneratePassword();
    r := Assemble(env, password, passwordFileWritten);
  }

  /** An override, even the empty string, reaches the command line verbatim. */
  lemma OverrideReachesCommand(env: Resolver.Env, password: string, exe: string)
    requires env.codeserverBin == Some(exe)
    ensures Assemble(env, password, true).Success?
    ensures Assemble(env, password, true).value.command[0] == exe
  {
  }

  /** End to end: after a successful setup, a request for the landing page maps
      to "/index.html?" followed by the user name, the generated password and
      sharing=true, which a reader splitting on '&' recovers in that order, as
      long as the user name has no '&' (the generated password never has one). */
  lemma LandingRequestCarriesPassword(env: Resolver.Env, password: string, path: string, user: string)
    requires Password.IsPassword(password)
    requires Assemble(env, password, true).Success?
    requires UrlMapper.IsLandingRequest(path) && '&' !in user
    ensures var p := Assemble(env, password, true).value;
            var r := MapRequest(p, path, user);
            && r[..|UrlMapper.LandingPage| + 1] == "/index.html?"
            && Query.Split(r[|UrlMapper.LandingPage| + 1..], '&')
               == ["username=" + user, "password=" + password, "sharing=true"]
  {
    assert '&' !in password by {
      forall i | 0 <= i < |password| ensures password[i] != '&' {
        assert Password.IsAlphanumeric(password[i]);
      }
    }
    UrlMapper.LandingRequestQuery(path, user, password);
  }
}
