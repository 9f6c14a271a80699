/** The start-up of the Obsidian MCP launcher: the `.env` file next to the
    script is loaded into the process environment line by line, and the
    server starts only when the API key is then set. The environment is
    POSIX's: `os.environ[key] = value` goes through `putenv`. */
module EnvLoader {
  import opened Wrappers
  import opened Text

  type Env = map<string, string>

  /** A `key=value` assignment read from one line. */
  datatype Assignment = Assignment(key: string, value: string)

  /** The assignment a line of the file makes, if any: the stripped line,
      when it is not empty, does not start with "#" and holds a "=", is cut
      at its first "="; the key is the text before it as it stands and the
      value the stripped text after it. */
  function ParseLine(line: string): (r: Option<Assignment>)
    ensures r.Some? <==> Strip(line) != [] && Strip(line)[0] != '#' && '=' in Strip(line)
    ensures r.Some? ==>
              var s, n := Strip(line), |r.value.key|;
              && n < |s| && s[..n] == r.value.key && s[n] == '='
              && '=' !in r.value.key
              && r.value.value == Strip(s[n + 1..])
  {
    var s := Strip(line);
    if s != [] && s[0] != '#' && '=' in s then
      var i := IndexOf(s, '=').value;
      Some(Assignment(s[..i], Strip(s[i + 1..])))
    else None
  }

  /** A line written as `key=value` reads back as that assignment, provided
      the line as a whole is not changed by stripping and the key does not
      start a comment or hold a "=". */
  lemma ParseLineRoundTrip(key: string, value: string)
    requires key != [] && !IsSpace(key[0]) && key[0] != '#' && '=' !in key
    requires IsStripped(value)
    ensures ParseLine(key + "=" + value) == Some(Assignment(key, value))
  {
    var line := key + "=" + value;
    assert line == key + ['='] + value;
    AssignmentStripped(key, value);
    StripOfStripped(line);
    StripOfStripped(value);
    IndexOfFirst(key, '=', value);
    assert line[..|key|] == key;
    assert line[|key| + 1..] == value;
  }

  lemma AssignmentStripped(key: string, value: string)
    requires key != [] && !IsSpace(key[0])
    requires IsStripped(value)
    ensures IsStripped(key + "=" + value)
  {
    var line := key + "=" + value;
    assert line[0] == key[0];
    if value == [] {
      assert line[|line| - 1] == '=';
    } else {
      assert line[|line| - 1] == value[|value| - 1];
    }
  }

  /** Blank lines and comment lines assign nothing. */
  lemma CommentsAssignNothing(line: string)
    requires AllSpace(line) || (Strip(line) != [] && Strip(line)[0] == '#')
    ensures ParseLine(line) == None
  {
  }

  const EmbeddedNull: string := "embedded null byte"
  const InvalidArgument: string := "[Errno 22] Invalid argument"

  /** Whether `putenv` accepts the assignment: no NUL character anywhere
      and a non-empty name. */
  predicate Legal(a: Assignment) {
    '\0' !in a.key && '\0' !in a.value && a.key != []
  }

  /** The message of the exception `os.environ[key] = value` raises for an
      assignment it refuses. Converting the arguments rejects a NUL
      character with a `ValueError` first; an empty name then reaches
      `setenv`, which fails with `EINVAL`, raised as an `OSError`. */
  function ErrorOf(a: Assignment): (e: string)
    requires !Legal(a)
    ensures e == EmbeddedNull <==> '\0' in a.key || '\0' in a.value
    ensures e == InvalidArgument <==> '\0' !in a.key && '\0' !in a.value && a.key == []
  {
    if '\0' in a.key || '\0' in a.value then EmbeddedNull else InvalidArgument
  }

  /** `os.environ[key] = value`. */
  function SetVar(env: Env, a: Assignment): (r: Result<Env, string>)
    ensures r.Ok? <==> Legal(a)
    ensures r.Ok? ==> a.key in r.value && r.value[a.key] == a.value
    ensures r.Ok? ==> forall k :: k != a.key ==> (k in r.value <==> k in env) && (k in env ==> r.value[k] == env[k])
    ensures r.Err? ==> r.error == ErrorOf(a)
  {
    if Legal(a) then Ok(env[a.key := a.value]) else Err(ErrorOf(a))
  }

  /** The loop over the lines of the file: each assignment is made in turn
      and the first refused one ends the program. */
  function Apply(env: Env, lines: seq<string>): (r: Result<Env, string>)
    ensures r.Ok? ==> forall k :: k in env ==> k in r.value
    ensures r.Err? ==> r.error == EmbeddedNull || r.error == InvalidArgument
    decreases |lines|
  {
    if |lines| == 0 then Ok(env)
    else
      match ParseLine(lines[0])
      case None => Apply(env, lines[1..])
      case Some(a) =>
        match SetVar(env, a)
        case Err(e) => Err(e)
        case Ok(env') => Apply(env', lines[1..])
  }

  /** The assignments the lines make, in file order. */
  function Assignments(lines: seq<string>): (r: seq<Assignment>)
    ensures |r| <= |lines|
  {
    if |lines| == 0 then []
    else
      match ParseLine(lines[0])
      case None => Assignments(lines[1..])
      case Some(a) => [a] + Assignments(lines[1..])
  }

  /** The names the assignments set. */
  function Names(assigns: seq<Assignment>): set<string> {
    set a | a in assigns :: a.key
  }

  /** The value the last assignment to `key` gives it, if any. */
  function LastValue(assigns: seq<Assignment>, key: string): (r: Option<string>)
    ensures r.None? <==> key !in Names(assigns)
    ensures r.Some? ==> exists j :: 0 <= j < |assigns| && assigns[j] == Assignment(key, r.value)
                                    && forall i :: j < i < |assigns| ==> assigns[i].key != key
  {
    if |assigns| == 0 then None
    else
      assert forall a :: a in assigns ==> a == assigns[0] || a in assigns[1..];
      match LastValue(assigns[1..], key)
      case Some(v) =>
        var j :| 0 <= j < |assigns[1..]| && assigns[1..][j] == Assignment(key, v)
                 && forall i :: j < i < |assigns[1..]| ==> assigns[1..][i].key != key;
        assert assigns[j + 1] == assigns[1..][j];
        assert forall i :: j + 1 < i < |assigns| ==> assigns[i] == assigns[1..][i - 1];
        Some(v)
      case None =>
        if assigns[0].key == key then
          assert forall i :: 0 < i < |assigns| ==> assigns[i] in assigns[1..];
          Some(assigns[0].value)
        else None
  }

  /** The environment after all assignments, stated without the loop: a
      name the file sets has the value of its last assignment, any other
      name keeps what it had. */
  function Final(env: Env, assigns: seq<Assignment>): (r: Env)
    ensures r.Keys == env.Keys + Names(assigns)
  {
    map k | k in env.Keys + Names(assigns) ::
      match LastValue(assigns, k)
      case Some(v) => v
      case None => env[k]
  }

  /** The position of the first assignment `putenv` refuses. */
  function FirstIllegal(assigns: seq<Assignment>): (i: nat)
    requires exists j :: 0 <= j < |assigns| && !Legal(assigns[j])
    ensures i < |assigns| && !Legal(assigns[i])
    ensures forall j :: 0 <= j < i ==> Legal(assigns[j])
  {
    if !Legal(assigns[0]) then 0
    else
      var j :| 0 <= j < |assigns| && !Legal(assigns[j]);
      assert assigns[1..][j - 1] == assigns[j];
      var i := FirstIllegal(assigns[1..]);
      assert forall j :: 1 <= j < i + 1 ==> assigns[j] == assigns[1..][j - 1];
      i + 1
  }

  predicate AllLegal(assigns: seq<Assignment>) {
    forall j :: 0 <= j < |assigns| ==> Legal(assigns[j])
  }

  /** Setting a name first and then the remaining assignments is the final
      environment of all of them. */
  lemma FinalCons(env: Env, a: Assignment, rest: seq<Assignment>)
    ensures Final(env[a.key := a.value], rest) == Final(env, [a] + rest)
  {
    NamesCons(a, rest);
    var lhs, rhs := Final(env[a.key := a.value], rest), Final(env, [a] + rest);
    forall k | k in lhs.Keys
      ensures rhs[k] == lhs[k]
    {
      LastValueCons(a, rest, k);
    }
  }

  lemma NamesCons(a: Assignment, rest: seq<Assignment>)
    ensures Names([a] + rest) == {a.key} + Names(rest)
  {
    var all := [a] + rest;
    assert forall b :: b in all ==> b == a || b in rest;
  }

  lemma LastValueCons(a: Assignment, rest: seq<Assignment>, k: string)
    ensures LastValue([a] + rest, k) == if LastValue(rest, k).Some? then LastValue(rest, k)
                                        else if a.key == k then Some(a.value) else None
  {
    assert ([a] + rest)[1..] == rest;
  }

  /** The loop against its reference: when every assignment is legal the
      environment ends as `Final` says, and otherwise the run fails with the
      error of the first refused assignment. */
  lemma {:induction false} ApplyMeaning(env: Env, lines: seq<string>)
    ensures var assigns := Assignments(lines);
            Apply(env, lines) == if AllLegal(assigns) then Ok(Final(env, assigns))
                                 else Err(ErrorOf(assigns[FirstIllegal(assigns)]))
    decreases |lines|
  {
    if |lines| == 0 {
      assert Final(env, []) == env;
    } else {
      var rest := Assignments(lines[1..]);
      match ParseLine(lines[0])
      case None =>
        ApplyMeaning(env, lines[1..]);
      case Some(a) =>
        assert Assignments(lines) == [a] + rest;
        LegalCons(a, rest);
        if Legal(a) {
          ApplyMeaning(env[a.key := a.value], lines[1..]);
          FinalCons(env, a, rest);
        }
    }
  }

  /** How legality and the first refused assignment extend to one more
      assignment in front. */
  lemma LegalCons(a: Assignment, rest: seq<Assignment>)
    ensures AllLegal([a] + rest) <==> Legal(a) && AllLegal(rest)
    ensures !Legal(a) ==> FirstIllegal([a] + rest) == 0
    ensures Legal(a) && !AllLegal(rest) ==>
              && FirstIllegal([a] + rest) == FirstIllegal(rest) + 1
              && ([a] + rest)[FirstIllegal(rest) + 1] == rest[FirstIllegal(rest)]
  {
    var all := [a] + rest;
    assert forall j :: 0 < j < |all| ==> all[j] == rest[j - 1];
    assert all[0] == a && all[1..] == rest;
    if Legal(a) && !AllLegal(rest) {
      var j := FirstIllegal(rest);
      assert !Legal(all[j + 1]);
      assert FirstIllegal(all) == FirstIllegal(all[1..]) + 1;
    }
  }

  /** Loading the environment file: nothing happens when it does not exist;
      otherwise its lines (any newline convention) are applied. */
  function LoadEnv(env: Env, file: Option<string>): (r: Result<Env, string>)
    ensures file.None? ==> r == Ok(env)
  {
    match file
    case None => Ok(env)
    case Some(text) => Apply(env, Lines(text))
  }

  /** A name the file assigns legally ends with its last value; a name the
      file does not mention keeps its value, or stays unset. */
  lemma LoadEnvLastWins(env: Env, text: string, key: string)
    requires AllLegal(Assignments(Lines(text)))
    ensures LoadEnv(env, Some(text)).Ok?
    ensures var r := LoadEnv(env, Some(text)).value;
            var last := LastValue(Assignments(Lines(text)), key);
            && (last.Some? ==> key in r && r[key] == last.value)
            && (last.None? ==> (key in r <==> key in env) && (key in env ==> r[key] == env[key]))
  {
    ApplyMeaning(env, Lines(text));
  }

  const ApiKey: string := "OBSIDIAN_API_KEY"
  const MissingApiKey: string := "Error: OBSIDIAN_API_KEY not found!"

  /** How the launcher ends before the server: it starts the server with
      the environment, or stops with exit status 1 and a message. */
  datatype Launch = Launched(env: Env) | Stopped(message: string)

  /** The script up to starting the server. `file` is the content of the
      `.env` file, or `None` when there is none. */
  function Start(env: Env, file: Option<string>): (r: Launch)
    ensures r.Launched? <==> LoadEnv(env, file).Ok? && ApiKey in LoadEnv(env, file).value
    ensures r.Launched? ==> r.env == LoadEnv(env, file).value
    ensures LoadEnv(env, file).Err? ==> r == Stopped(LoadEnv(env, file).error)
    ensures LoadEnv(env, file).Ok? && ApiKey !in LoadEnv(env, file).value ==> r == Stopped(MissingApiKey)
  {
    match LoadEnv(env, file)
    case Err(e) => Stopped(e)
    case Ok(env') => if ApiKey in env' then Launched(env') else Stopped(MissingApiKey)
  }

  /** Without a file the server starts exactly when the key is already in
      the environment, which is passed on unchanged. */
  lemma StartWithoutFile(env: Env)
    ensures Start(env, None) == if ApiKey in env then Launched(env) else Stopped(MissingApiKey)
  {
  }

  /** A file whose assignments are all legal and which sets the key starts
      the server with the key's last value from the file, whatever the
      environment held before. */
  lemma FileKeyLaunches(env: Env, text: string)
    requires AllLegal(Assignments(Lines(text)))
    requires ApiKey in Names(Assignments(Lines(text)))
    ensures Start(env, Some(text)).Launched?
    ensures Start(env, Some(text)).env[ApiKey] == LastValue(Assignments(Lines(text)), ApiKey).value
  {
    LoadEnvLastWins(env, text, ApiKey);
  }
}
