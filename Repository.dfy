/**
 * The repository checkout the scripts run in, and the processes they start.
 * The state is the JSON files under the root, the `git` and `npm` commands
 * run so far with their outcome, the console, and the tags that point at
 * `HEAD`. Which writes and which commands fail is fixed by an environment.
 */
module Repository {
  import opened Wrappers
  import opened JsonValues
  import opened Packages

  /** A file on disk: text `JSON.parse` rejects, or a parsed document. */
  datatype Stored = Unparsable | Doc(json: Json)

  datatype Command =
    | GitCommitAll(message: string)
    | GitTagAnnotated(name: string, message: string)
    | GitListHeadTags
    | NpmPublish(dir: Path, tag: string)

  /** One `execSync` call and whether the process exited with status 0. */
  datatype Exec = Exec(command: Command, succeeded: bool)

  datatype ConsoleLine = Stdout(text: string) | Stderr(text: string)

  datatype World = World(
    files: map<Path, Stored>,
    commands: seq<Exec>,
    console: seq<ConsoleLine>,
    headTags: seq<string>)

  /** The read-only files (writing one throws) and the commands that exit with a non-zero status. */
  datatype Env = Env(readOnly: set<Path>, failing: set<Command>)

  datatype IoError = NotFound | ParseError | WriteRejected | CommandFailed

  /**
   * Every stored document is one `JSON.parse` can produce: no object, at any
   * depth, repeats a key. Holds of a checkout and is kept by what the
   * scripts write.
   */
  predicate Parsed(w: World)
  {
    forall p :: p in w.files && w.files[p].Doc? ==> WellFormed(w.files[p].json)
  }

  /** `jsonfile.readFile`: a missing file and unparsable text both reject. */
  function Read(w: World, path: Path): (r: Result<Json, IoError>)
    ensures r.Ok? <==> path in w.files && w.files[path].Doc?
    ensures r.Ok? ==> r.value == w.files[path].json
    ensures r.Ok? && Parsed(w) ==> WellFormed(r.value)
  {
    if path !in w.files then Err(NotFound)
    else match w.files[path]
      case Unparsable => Err(ParseError)
      case Doc(j) => Ok(j)
  }

  /** `jsonfile.writeFile`: replaces the file with the document unless it is read-only. */
  function Write(env: Env, w: World, path: Path, json: Json): (r: (World, bool))
    ensures r.1 <==> path !in env.readOnly
    ensures r.1 ==> Read(r.0, path) == Ok(json)
    ensures forall p :: p != path ==> Read(r.0, p) == Read(w, p)
    ensures r.0.commands == w.commands && r.0.console == w.console && r.0.headTags == w.headTags
    ensures Parsed(w) && WellFormed(json) ==> Parsed(r.0)
  {
    if path in env.readOnly then (w, false)
    else (w.(files := w.files[path := Doc(json)]), true)
  }

  function Say(w: World, line: ConsoleLine): (r: World)
    ensures r.console == w.console + [line]
    ensures r.files == w.files && r.commands == w.commands && r.headTags == w.headTags
  {
    w.(console := w.console + [line])
  }

  /** Code-point order of strings, the order `git tag --list` sorts names in. */
  predicate LexLess(a: string, b: string)
    decreases |a|
  {
    if a == [] then b != []
    else b != [] && (a[0] < b[0] || (a[0] == b[0] && LexLess(a[1..], b[1..])))
  }

  /** A new tag name entered into the sorted tag list. */
  function InsertSorted(tags: seq<string>, t: string): (r: seq<string>)
    ensures forall x :: x in r <==> x in tags || x == t
    ensures t in tags ==> r == tags
    ensures tags == [] ==> r == [t]
    decreases |tags|
  {
    if tags == [] then [t]
    else if t in tags then tags
    else if LexLess(t, tags[0]) then [t] + tags
    else [tags[0]] + InsertSorted(tags[1..], t)
  }

  /** What `git tag --list --points-at HEAD` prints: one name per line. */
  function TagListing(tags: seq<string>): (out: string)
    decreases |tags|
  {
    if tags == [] then "" else tags[0] + "\n" + TagListing(tags[1..])
  }

  /**
   * `execSync(command)`: the command is logged with its outcome; a failing
   * one throws and changes nothing else. A commit moves `HEAD` to a commit
   * no tag points at; an annotated tag points at `HEAD`.
   */
  function Run(env: Env, w: World, command: Command): (r: (World, Result<string, IoError>))
    ensures r.0.commands == w.commands + [Exec(command, command !in env.failing)]
    ensures r.1.Ok? <==> command !in env.failing
    ensures r.0.files == w.files && r.0.console == w.console
    ensures r.1.Err? ==> r.0.headTags == w.headTags
  {
    var ok := command !in env.failing;
    var logged := w.(commands := w.commands + [Exec(command, ok)]);
    if !ok then (logged, Err(CommandFailed))
    else match command
      case GitCommitAll(_) => (logged.(headTags := []), Ok(""))
      case GitTagAnnotated(name, _) => (logged.(headTags := InsertSorted(w.headTags, name)), Ok(""))
      case GitListHeadTags => (logged, Ok(TagListing(w.headTags)))
      case NpmPublish(_, _) => (logged, Ok(""))
  }

  /** A successful commit followed by a successful tag leaves exactly that tag at `HEAD`. */
  lemma CommitThenTag(env: Env, w: World, message: string, name: string, tagMessage: string)
    requires GitCommitAll(message) !in env.failing && GitTagAnnotated(name, tagMessage) !in env.failing
    ensures var w1 := Run(env, w, GitCommitAll(message)).0;
            var w2 := Run(env, w1, GitTagAnnotated(name, tagMessage)).0;
            w2.headTags == [name]
            && w2.commands == w.commands + [Exec(GitCommitAll(message), true), Exec(GitTagAnnotated(name, tagMessage), true)]
            && Run(env, w2, GitListHeadTags).1 == (if GitListHeadTags in env.failing then Err(CommandFailed) else Ok(name + "\n"))
  {
    var w1 := Run(env, w, GitCommitAll(message)).0;
    assert w1.headTags == [];
    var w2 := Run(env, w1, GitTagAnnotated(name, tagMessage)).0;
    assert w2.headTags == [name];
    assert TagListing([name]) == name + "\n" + TagListing([]);
    assert TagListing([name]) == name + "\n";
    if GitListHeadTags !in env.failing {
      assert Run(env, w2, GitListHeadTags).1 == Ok(TagListing(w2.headTags));
    }
  }

  /** The repository checkout: its files, the processes run in it and the console, changing in place. */
  class Workspace {
    const env: Env
    var files: map<Path, Stored>
    var commands: seq<Exec>
    var console: seq<ConsoleLine>
    var headTags: seq<string>

    function State(): World
      reads this
    {
      World(files, commands, console, headTags)
    }

    constructor(env: Env, w: World)
      ensures this.env == env && State() == w
    {
      this.env := env;
      files := w.files;
      commands := w.commands;
      console := w.console;
      headTags := w.headTags;
    }

    method ReadJson(path: Path) returns (r: Result<Json, IoError>)
      ensures r == Read(State(), path)
    {
      if path !in files {
        return Err(NotFound);
      }
      match files[path]
      case Unparsable => r := Err(ParseError);
      case Doc(j) => r := Ok(j);
    }

    method WriteJson(path: Path, json: Json) returns (ok: bool)
      modifies this
      ensures (State(), ok) == Write(env, old(State()), path, json)
    {
      if path in env.readOnly {
        return false;
      }
      files := files[path := Doc(json)];
      return true;
    }

    method Log(line: ConsoleLine)
      modifies this
      ensures State() == Say(old(State()), line)
    {
      console := console + [line];
    }

    method ExecSync(command: Command) returns (r: Result<string, IoError>)
      modifies this
      ensures (State(), r) == Run(env, old(State()), command)
    {
      var ok := command !in env.failing;
      commands := commands + [Exec(command, ok)];
      if !ok {
        return Err(CommandFailed);
      }
      match command
      case GitCommitAll(_) =>
        headTags := [];
        r := Ok("");
      case GitTagAnnotated(name, _) =>
        headTags := InsertSorted(headTags, name);
        r := Ok("");
      case GitListHeadTags =>
        r := Ok(TagListing(headTags));
      case NpmPublish(_, _) =>
        r := Ok("");
    }
  }
}
