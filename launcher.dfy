/** `MicroscopioController::run`: the checks made before the capture script
    is started, the interpreter lookup, the environment and argument vector
    handed to the process, and the response built from the process outcome.
    The file system (`file_exists`, `is_executable`), the ambient environment
    and the process itself are parameters. */
module Launcher {
  import opened Wrappers
  import Text

  /** `base_path($p)`. */
  function BasePath(base: string, p: string): string {
    base + "/" + p
  }

  function Venv(base: string): string { BasePath(base, ".venv/bin/python") }

  function Script(base: string): string { BasePath(base, "app/Http/Scripts/microscopio.py") }

  /** The fixed interpreter locations tried after the project's virtual environment. */
  const CANDIDATES: seq<string> := ["/opt/homebrew/bin/python3", "/usr/local/bin/python3", "/usr/bin/python3", "python3"]

  /** The bare name is taken without a check: the system's search path resolves it. */
  predicate Accepts(p: string, isExecutable: string -> bool) {
    p == "python3" || isExecutable(p)
  }

  /** The first accepted candidate, if any. */
  function FirstAccepted(cands: seq<string>, isExecutable: string -> bool): (r: Option<string>)
    ensures r.Some? ==> exists k ::
      && 0 <= k < |cands| && cands[k] == r.value && Accepts(cands[k], isExecutable)
      && forall j :: 0 <= j < k ==> !Accepts(cands[j], isExecutable)
    ensures r.None? ==> forall j :: 0 <= j < |cands| ==> !Accepts(cands[j], isExecutable)
  {
    if cands == [] then None
    else if Accepts(cands[0], isExecutable) then Some(cands[0])
    else
      var r := FirstAccepted(cands[1..], isExecutable);
      if r.Some? then
        var k :| 1 <= k + 1 < |cands| && cands[1..][k] == r.value && Accepts(cands[1..][k], isExecutable)
          && forall j :: 0 <= j < k ==> !Accepts(cands[1..][j], isExecutable);
        assert cands[k + 1] == r.value;
        r
      else r
  }

  /** The interpreter `resolvePythonPath` settles on. */
  function ResolvedPython(base: string, isExecutable: string -> bool): Option<string> {
    if isExecutable(Venv(base)) then Some(Venv(base)) else FirstAccepted(CANDIDATES, isExecutable)
  }

  /** The lookup always finds an interpreter: at worst the bare `python3`,
      so the "Python 3 not found" answer can never be given. */
  lemma ResolvedPythonNeverNull(base: string, isExecutable: string -> bool)
    ensures ResolvedPython(base, isExecutable).Some?
    ensures ResolvedPython(base, isExecutable).value in [Venv(base)] + CANDIDATES
  {
    if !isExecutable(Venv(base)) {
      assert Accepts(CANDIDATES[3], isExecutable);
      var r := FirstAccepted(CANDIDATES, isExecutable);
      var k :| 0 <= k < |CANDIDATES| && CANDIDATES[k] == r.value;
    }
  }

  /** `resolvePythonPath`: the virtual environment's interpreter when it is
      executable, otherwise the first candidate in order that is executable
      or is the bare name. */
  method ResolvePythonPath(base: string, isExecutable: string -> bool) returns (python: Option<string>)
    ensures python == ResolvedPython(base, isExecutable)
    ensures python.Some?
  {
    ResolvedPythonNeverNull(base, isExecutable);
    var venv := Venv(base);
    if isExecutable(venv) {
      return Some(venv);
    }
    var i := 0;
    while i < |CANDIDATES|
      invariant 0 <= i <= |CANDIDATES|
      invariant FirstAccepted(CANDIDATES[i..], isExecutable) == FirstAccepted(CANDIDATES, isExecutable)
    {
      var p := CANDIDATES[i];
      assert CANDIDATES[i..][1..] == CANDIDATES[i + 1..];
      if p == "python3" {
        return Some(p);
      }
      if isExecutable(p) {
        return Some(p);
      }
      i := i + 1;
    }
    return None;
  }

  // ---------------------------------------------------------------------
  // run

  /** A PHP scalar as read from the user model. */
  datatype Scalar = PInt(i: int) | PStr(s: string)

  /** PHP truthiness of a scalar: 0, "" and "0" are falsy. */
  predicate Truthy(v: Scalar) {
    match v
    case PInt(i) => i != 0
    case PStr(s) => s != "" && s != "0"
  }

  /** `(string) $v`. */
  function ToStr(v: Scalar): string {
    match v
    case PInt(i) => Text.IntToString(i)
    case PStr(s) => s
  }

  /** The attributes of the signed-in user that `run` reads; None is null or absent. */
  datatype AuthUser = AuthUser(id: Option<Scalar>, idUsuario: Option<Scalar>,
                               name: Option<Scalar>, nomeUsuario: Option<Scalar>)

  /** `$user->id ?? $user->ID_USUARIO ?? null`. */
  function UserId(u: AuthUser): Option<Scalar> {
    if u.id.Some? then u.id else u.idUsuario
  }

  /** `$user->name ?? $user->NOME_USUARIO ?? 'Usuário'`, as a string. */
  function UserName(u: AuthUser): string {
    if u.name.Some? then ToStr(u.name.value)
    else if u.nomeUsuario.Some? then ToStr(u.nomeUsuario.value)
    else "Usu\U{E1}rio"
  }

  const AUTH_USER_ID := "AUTH_USER_ID"
  const AUTH_USER_NAME := "AUTH_USER_NAME"

  /** `array_merge($_ENV, [...])`: the ambient environment with the two user
      variables added, replacing any ambient values of those names. */
  function ProcessEnv(ambient: map<string, string>, userId: string, userName: string): (env: map<string, string>)
    ensures env.Keys == ambient.Keys + {AUTH_USER_ID, AUTH_USER_NAME}
    ensures env[AUTH_USER_ID] == userId && env[AUTH_USER_NAME] == userName
    ensures forall k :: k in ambient && k != AUTH_USER_ID && k != AUTH_USER_NAME ==> env[k] == ambient[k]
  {
    ambient[AUTH_USER_ID := userId][AUTH_USER_NAME := userName]
  }

  /** A process to start: its argument vector, working directory and environment. */
  datatype Launch = Launch(argv: seq<string>, workdir: string, env: map<string, string>)

  /** What the synchronous diagnostic run reports. */
  datatype DiagOutcome = Finished(successful: bool, out: string, err: string) | TimedOut

  /** The redirect `run` answers with: an error or a success message. */
  datatype Response = Error(message: string) | Ok(message: string)

  const NOT_SIGNED_IN := "Voc\U{EA} precisa estar logado."
  const NO_USER_ID := "N\U{E3}o foi poss\U{ED}vel determinar o ID do usu\U{E1}rio autenticado."
  const NO_PYTHON := "Python 3 n\U{E3}o encontrado. Ajuste o caminho no controller."
  const START_FAILED := "Erro ao iniciar o microsc\U{F3}pio. Verifique os logs."
  const STARTED := "Microsc\U{F3}pio iniciado. Verifique a janela do app e os logs em storage/logs/microscopio.*.log"

  function ScriptMissing(script: string): string {
    "Script n\U{E3}o encontrado em " + script
  }

  /** The response to a diagnostic run: a failed process reports its error
      output and then its standard output; a successful one its standard output. */
  function DiagResponse(o: DiagOutcome): (r: Response)
    ensures o.Finished? && !o.successful ==> r == Error("Falha ao iniciar Python (diag):\n" + o.err + "\n" + o.out)
    ensures o.Finished? && o.successful ==> r == Ok("Python OK (diag):\n" + o.out)
    ensures o.TimedOut? ==> r == Error(START_FAILED)
  {
    match o
    case TimedOut => Error(START_FAILED)
    case Finished(ok, out, err) =>
      if !ok then Error("Falha ao iniciar Python (diag):\n" + err + "\n" + out)
      else Ok("Python OK (diag):\n" + out)
  }

  /** `run`. `diag` is the request's `diag` flag; `runDiag` is the outcome of
      running a process to completion, and `starts` whether starting the app
      and waiting on its output end without an exception. The wait is not in
      the background: its callback never reports the condition met, so it
      lasts until the app exits, and only then is the response given.
      Returns the response and the process launched, if any. */
  method Run(user: Option<AuthUser>, base: string, fileExists: string -> bool, isExecutable: string -> bool,
             ambient: map<string, string>, diag: bool, runDiag: Launch -> DiagOutcome, starts: Launch -> bool)
    returns (response: Response, launched: Option<Launch>)
    ensures user.None? ==> response == Error(NOT_SIGNED_IN) && launched == None
    ensures user.Some? && (UserId(user.value).None? || !Truthy(UserId(user.value).value)) ==>
      response == Error(NO_USER_ID) && launched == None
    ensures user.Some? && UserId(user.value).Some? && Truthy(UserId(user.value).value) && !fileExists(Script(base)) ==>
      response == Error(ScriptMissing(Script(base))) && launched == None
    ensures user.Some? && UserId(user.value).Some? && Truthy(UserId(user.value).value) && fileExists(Script(base)) ==>
      var u := user.value;
      var l := Launch([ResolvedPython(base, isExecutable).value, Script(base)], base,
                      ProcessEnv(ambient, ToStr(UserId(u).value), UserName(u)));
      && launched == Some(l)
      && response == if diag then DiagResponse(runDiag(l)) else if starts(l) then Ok(STARTED) else Error(START_FAILED)
  {
    if user.None? {
      return Error(NOT_SIGNED_IN), None;
    }
    var u := user.value;
    var userId := UserId(u);
    var userName := UserName(u);
    if userId.None? || !Truthy(userId.value) {
      return Error(NO_USER_ID), None;
    }
    var script := Script(base);
    if !fileExists(script) {
      return Error(ScriptMissing(script)), None;
    }
    var python := ResolvePythonPath(base, isExecutable);
    if python.None? {
      return Error(NO_PYTHON), None;
    }
    var env := ProcessEnv(ambient, ToStr(userId.value), userName);
    var l := Launch([python.value, script], base, env);
    launched := Some(l);
    if diag {
      response := DiagResponse(runDiag(l));
    } else if starts(l) {
      response := Ok(STARTED);
    } else {
      response := Error(START_FAILED);
    }
  }

  /** The process always gets exactly two arguments, the interpreter and the
      script, and the user's id and name through its environment. */
  lemma LaunchShape(user: AuthUser, base: string, isExecutable: string -> bool, ambient: map<string, string>)
    requires UserId(user).Some? && Truthy(UserId(user).value)
    ensures var l := Launch([ResolvedPython(base, isExecutable).value, Script(base)], base,
                            ProcessEnv(ambient, ToStr(UserId(user).value), UserName(user)));
      && |l.argv| == 2 && l.argv[0] in [Venv(base)] + CANDIDATES && l.argv[1] == Script(base)
      && l.env[AUTH_USER_ID] == ToStr(UserId(user).value)
  {
    ResolvedPythonNeverNull(base, isExecutable);
  }
}
