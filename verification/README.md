# jupyter-codeserver-proxy, modelled in Dafny

This project models the plugin that lets a Jupyter notebook server launch
code-server (VS Code in the browser) and reverse-proxy it as a
sub-application. The plugin's logic is pure once its operating-system calls
become inputs, and this model covers all of it:

- **Executable resolver** (`resolver.dfy`). It looks up `code-server` in a
  fixed order: the `CODESERVER_BIN` override, the package's own `bin`
  directory, the system search path, then `/opt/codeserver/bin`. The first
  strategy that answers wins, and otherwise it fails with "Could not find
  <prog> in PATH". The host is a value: the override as an `Option`, the
  package directory, the set of existing files, and the set of names `which`
  finds.
- **Path mapper** (`url_mapper.dfy`, with `query.dfy` for `"&".join` and its
  inverse). A request for `/` or `/index.html` becomes
  `/index.html?username=<user>&password=<password>&sharing=true`. Every other
  path passes through unchanged. The process-wide password is an
  `Option<string>`, so reading it before setup is an explicit error.
- **Password** (`password.dfy`). The password is 16 characters, each drawn by
  `random.choice` from `ascii_letters + digits`. Each draw is a
  nondeterministic pick of an index into that alphabet, and the password is
  the string those indices select.
- **Launch record** (`setup.dfy`). Setup builds the command line
  `[exe, --auth=none, --disable-telemetry, --disable-update-check,
  --bind-addr=0.0.0.0:{port}, --verbose]`, where `exe` is the resolver's
  answer. It also fixes the metadata (empty environment, relative URLs, a
  90-second timeout, a new browser tab, the launcher entry) and binds the
  path mapper to the generated password.
- `posix_path.dfy` models `os.path.join` for two components on a POSIX host.
  `results.dfy` holds `Option` and `Result`.

Three behaviours of the plugin are worth knowing before reading the model:

- The override check is `is not None`, so a `CODESERVER_BIN` set to the empty
  string is returned as the executable.
- Only the two landing paths read the password, so only they fail when no
  password has been generated. Other paths pass through even before setup.
- The password is assigned before the password file is written, so it stays
  assigned even when setup then fails. `SetupCodeserver` therefore returns the
  password separately from the result.

## Model

| member | source | states |
|---|---|---|
| PosixPath.Join | jupyter-codeserver-proxy/src/__init__.py:41 | Joins two path components as on POSIX: an absolute second component replaces the first, and joining onto an absolute path gives an absolute path. |
| Resolver.Resolve | jupyter-codeserver-proxy/src/__init__.py:33-57 | A set override, even the empty string, is returned verbatim. Resolution fails exactly when no strategy answers, and the error names the program. A successful answer is always one that some strategy gives. |
| Resolver.Message | jupyter-codeserver-proxy/src/__init__.py:57 | The not-found message is "Could not find ", then the program name, then " in PATH". |
| Resolver.FirstExisting | jupyter-codeserver-proxy/src/__init__.py:50-55 | Returns the first listed path that exists, with no existing path before it. Returns nothing exactly when none of the paths exists. |
| Resolver.StrategyPrecedence | jupyter-codeserver-proxy/src/__init__.py:36-55 | If strategy k answers and no earlier strategy does, the resolver returns strategy k's answer (override, bundled path, bare name, known location). |
| Resolver.NoStrategyAnswers | jupyter-codeserver-proxy/src/__init__.py:57 | If none of the four strategies answers, resolution fails with the not-found error for the program. |
| Resolver.ResolveIsFirstStrategy | jupyter-codeserver-proxy/src/__init__.py:33-57 | The resolver equals the reference definition: the first strategy that answers, or not-found. |
| Resolver.LaterStrategiesIgnored | jupyter-codeserver-proxy/src/__init__.py:36-55 | Strategies after the first one that answers are never consulted. Two hosts that agree up to that strategy resolve identically. |
| Resolver.SearchPathReturnsBareName | jupyter-codeserver-proxy/src/__init__.py:46-47 | When only the search path knows the program, the bare program name is returned, not a resolved path. |
| Resolver.CodeServerPaths | jupyter-codeserver-proxy/src/__init__.py:41-52 | For code-server, the candidate files are <package dir>/bin/code-server and /opt/codeserver/bin/code-server. |
| Query.JoinWith | jupyter-codeserver-proxy/src/__init__.py:63-69 | Joining no parts gives the empty string, and a join starts with its first part. Query.SplitJoin and Query.JoinSplit show it is undone by splitting on the separator. |
| Query.SplitJoin | jupyter-codeserver-proxy/src/__init__.py:63-69 | Splitting the '&'-joined parameters on '&' gives back the parameter list, provided no parameter contains '&'. |
| Query.JoinSplit | jupyter-codeserver-proxy/src/__init__.py:63-69 | Joining the pieces of any string split on '&' gives back that string. |
| UrlMapper.UrlParams | jupyter-codeserver-proxy/src/__init__.py:60-71 | The query string is exactly "?username=" + user + "&password=" + password + "&sharing=true". |
| UrlMapper.UrlParamsSplit | jupyter-codeserver-proxy/src/__init__.py:60-71 | The query string is '?' followed by username, password and sharing=true, in that order. They can be recovered when the user name and password contain no '&'. |
| UrlMapper.MapPath | jupyter-codeserver-proxy/src/__init__.py:74-83 | Only / and /index.html are rewritten, to /index.html plus the query string. All other paths come back unchanged. The mapper fails exactly on a landing path with the password unset. No output is itself a landing path. |
| UrlMapper.MapPathIdempotent | jupyter-codeserver-proxy/src/__init__.py:74-83 | Mapping a mapped path changes nothing, whatever user name or password the second mapping gets. |
| UrlMapper.LandingRequestQuery | jupyter-codeserver-proxy/src/__init__.py:63-81 | A rewritten landing request starts with /index.html?. Its query splits back into username, password and sharing=true, in that order. |
| Password.AlphabetIsAlphanumeric | jupyter-codeserver-proxy/src/__init__.py:98 | The alphabet has 62 distinct characters. It holds exactly the ASCII letters and digits. |
| Password.AlphabetSpelledOut | jupyter-codeserver-proxy/src/__init__.py:98 | The alphabet is the lower-case letters, then the upper-case letters, then the digits, in the order draws index it. |
| Password.FromDraws | jupyter-codeserver-proxy/src/__init__.py:99 | Each draw picks one alphanumeric character, and the draw can be read back from the character. The password is as long as the draw sequence. |
| Password.EveryAlphanumericStringIsReachable | jupyter-codeserver-proxy/src/__init__.py:97-99 | Every alphanumeric string is produced by some draw sequence. The generator's possible outputs are therefore exactly the alphanumeric strings of the requested length. |
| Password.RandomAlphanumeric | jupyter-codeserver-proxy/src/__init__.py:97-99 | Whatever indices are drawn, the result has the requested length and only ASCII letters and digits. It is exactly the string FromDraws gives for the indices drawn. |
| Password.GeneratePassword | jupyter-codeserver-proxy/src/__init__.py:102 | The generated password is 16 alphanumeric characters, produced from its draws as FromDraws describes. |
| Setup.Command | jupyter-codeserver-proxy/src/__init__.py:118-128 | The command is exactly the executable, then --auth=none, --disable-telemetry, --disable-update-check, --bind-addr=0.0.0.0:{port} and --verbose, in that order. The bind-address argument starts with --bind-addr= and contains the {port} placeholder. |
| Setup.CommandFlagsFixed | jupyter-codeserver-proxy/src/__init__.py:118-128 | The flags after the executable are the same whichever executable was found. |
| Setup.Message | jupyter-codeserver-proxy/src/__init__.py:112 | The password-file failure has exactly the message "Passwd generation in temp file FAILED", which no missing-executable message equals. A missing executable's message names the program. |
| Setup.Assemble | jupyter-codeserver-proxy/src/__init__.py:86-144 | Setup fails exactly when the password file is not written or the executable is missing. A file failure is reported first. On success, the record's command starts with the resolver's answer and carries the password. The environment is empty, URLs are not absolute, the timeout is 90, a new tab opens and the launcher entry is enabled with its title. |
| Setup.MapRequest | jupyter-codeserver-proxy/src/__init__.py:131-137 | The mapper in a built record never raises, and it leaves non-landing paths unchanged. |
| Setup.SetupCodeserver | jupyter-codeserver-proxy/src/__init__.py:86-144 | Setup always leaves a 16-character alphanumeric password assigned, and its result is the assembled record or error for that password. |
| Setup.OverrideReachesCommand | jupyter-codeserver-proxy/src/__init__.py:37-38 | With the override set and the password file written, setup succeeds, and the override, even if empty, is the first command argument. |
| Setup.LandingRequestCarriesPassword | jupyter-codeserver-proxy/src/__init__.py:60-102 | After setup, a landing request maps to /index.html? with username, the generated password and sharing=true, which can be recovered in order for a user name without '&'. |

## Left out

- Setup.MapRequest: the plugin's mapper reads the process-wide password on every call. The model's record instead keeps the password from its own setup. The two differ only if setup runs a second time, after which the plugin's older records would send the newer password. The proxy framework runs setup once per server process.
- Temporary-file creation and writing (`mkstemp`, `open`, `write`) are operating-system I/O. Their outcome is the boolean `passwordFileWritten`. The model keeps only the order of failures, and the fact that the password is assigned first.
- Logging calls have no behaviour beyond their side effects.
- `random.choice` is a nondeterministic pick of the index it draws. The password is the one `Password.FromDraws` gives for those indices. Only the password's shape is modelled, not its distribution.
- `os.getenv`, `os.path.exists`, `shutil.which`, `getpass.getuser` and the package directory (`HERE`) are inputs. A failing `getuser` is not modelled. `which` matters only through whether it answers, because the bare name is returned.
- `CODESERVER_BIN` is read twice by the plugin and once here. Nothing can change it between the two reads in a single-threaded call.
- `os.path.join` is modelled for two components on POSIX only. Windows path rules are not modelled.
- The launcher icon path is built with `PosixPath.Join`, but `Setup.Assemble` states nothing about it. It is platform path handling with nothing to prove.
- The global `_codeserver_aeskey` is declared by the plugin but never assigned or read.
- Port substitution into `{port}`, process launch and reverse proxying belong to the host framework, which is not part of this model.
- User names are put into the query string without URL encoding. `UrlMapper.UrlParamsSplit` and `Setup.LandingRequestCarriesPassword` therefore state the round trip only for user names without '&'.
