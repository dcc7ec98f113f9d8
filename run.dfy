/** The `run` command: its schema, `run()`, and its create-tasking
    translator, `runCreateTask`, which turns an executable and an argument
    string into a Merlin job of type CMD. */
module Run {
  import opened Wrappers
  import opened GoStrings
  import opened Jobs
  import opened Mythic

  // ----- Schema -----

  /** The required `executable` parameter. */
  function ExecutableParameter(): (p: Parameter) {
    Parameter("executable", "executable", String, None, [GroupInfo(true, "Default", 0)])
  }

  /** The optional `arguments` parameter (CLI name `args`), empty by default. */
  function ArgumentsParameter(): (p: Parameter) {
    Parameter("arguments", "args", String, Some(""), [GroupInfo(false, "Default", 1)])
  }

  /** `run()`: the command as registered with Mythic. */
  function RunCommand(): (c: Command) {
    Command("run", false, [ExecutableParameter(), ArgumentsParameter()])
  }

  /** "Default" is the only group; in it `executable` is required and
      `arguments` is optional with the empty string as its default. */
  lemma SchemaGroups()
    ensures DeclaredGroups(RunCommand()) == {"Default"}
    ensures GroupParameters(RunCommand(), "Default") == [ExecutableParameter(), ArgumentsParameter()]
    ensures RequiredIn(ExecutableParameter(), "Default")
    ensures InGroup(ArgumentsParameter(), "Default") && !RequiredIn(ArgumentsParameter(), "Default")
    ensures ArgumentsParameter().defaultValue == Some("")
  {
    var c := RunCommand();
    assert ExecutableParameter().groups[0].groupName == "Default";
    assert ArgumentsParameter().groups[0].groupName == "Default";
    assert c.parameters[1..] == [ArgumentsParameter()];
    assert forall p, i | p in c.parameters && 0 <= i < |p.groups| :: p.groups[i].groupName == "Default";
    assert ExecutableParameter().groups[0].groupName in DeclaredGroups(c);
  }

  // ----- The job -----

  /** The Merlin job for running `executable` with `arguments`: the
      executable itself is the command, and a non-empty argument string is
      cut at every single space, with no quoting or escaping, so adjacent
      spaces give empty arguments. */
  function RunJob(executable: string, arguments: string): (job: Job)
    ensures job.command == executable
    ensures Join(job.args, ' ') == arguments
    ensures arguments == "" <==> job.args == []
    ensures arguments != "" ==> |job.args| == Count(arguments, ' ') + 1
    ensures forall i :: 0 <= i < |job.args| ==> ' ' !in job.args[i]
  {
    JoinSplit(arguments, ' ');
    SplitPiecesAreFree(arguments, ' ');
    Job(executable, if arguments != "" then Split(arguments, ' ') else [])
  }

  /** The argument list determines the argument string it came from. */
  lemma RunJobInjective(executable: string, a: string, b: string)
    requires RunJob(executable, a) == RunJob(executable, b)
    ensures a == b
  {
  }

  /** A list of space-free arguments survives the round trip through the
      argument string. */
  lemma RunJobOfJoined(executable: string, args: seq<string>)
    requires |args| > 0 && Join(args, ' ') != ""
    requires forall i :: 0 <= i < |args| ==> ' ' !in args[i]
    ensures RunJob(executable, Join(args, ' ')).args == args
  {
    SplitJoin(args, ' ');
  }

  /** Prefix of every error message of the translator. */
  const Pkg: string := "mythic/container/commands/run/runCreateTask()"

  // ----- The translator -----

  /** `runCreateTask`. Reads `executable` and then `arguments`, stopping at
      the first that cannot be read; builds the job, converts it as a CMD
      job, and on success makes it the task's manual arguments and shows
      `executable + " " + arguments`. */
  method RunCreateTask(task: TaskMessage, args: TaskArgs, convert: Converter) returns (resp: Response)
    modifies args
    ensures resp.taskId == task.id
    ensures resp.success ==> resp.error == "" && resp.displayParams.Some? && args.manualArgs.Some?
    ensures !resp.success ==> |resp.error| > 0
    ensures !resp.success ==> resp.displayParams.None?
    ensures !resp.success ==> args.manualArgs == old(args.manualArgs)
    ensures match args.stringArg("executable")
      case Failure(e) =>
        && args.requested == old(args.requested) + ["executable"]
        && resp == Failed(task.id, Pkg + ": there was an error getting the 'executable' argument: " + e)
      case Success(executable) =>
        && args.requested == old(args.requested) + ["executable", "arguments"]
        && match args.stringArg("arguments")
           case Failure(e) =>
             resp == Failed(task.id, Pkg + ": there was an error getting the 'arguments' argument: " + e)
           case Success(arguments) =>
             Finished(resp, task.id, convert, RunJob(executable, arguments), Cmd, executable + " " + arguments,
                      Pkg + ": there was an error converting the Merlin job to a Mythic job: ",
                      args.manualArgs, old(args.manualArgs))
  {
    resp := Fresh(task.id);

    var executable := args.GetStringArg("executable");
    if executable.Failure? {
      resp := resp.(error := Pkg + ": there was an error getting the 'executable' argument: " + executable.error,
                    success := false);
      return;
    }

    var arguments := args.GetStringArg("arguments");
    if arguments.Failure? {
      resp := resp.(error := Pkg + ": there was an error getting the 'arguments' argument: " + arguments.error,
                    success := false);
      return;
    }

    var job := Job(executable.value, []);
    if arguments.value != "" {
      job := job.(args := job.args + Split(arguments.value, ' '));
    }

    assert job == RunJob(executable.value, arguments.value);
    var mythicJob := convert(job, Cmd);
    if mythicJob.Failure? {
      resp := resp.(error := Pkg + ": there was an error converting the Merlin job to a Mythic job: " + mythicJob.error,
                    success := false);
      return;
    }

    args.SetManualArgs(mythicJob.value);
    var display := executable.value + " " + arguments.value;
    resp := resp.(displayParams := Some(display), success := true);
  }

  /** The `ping` scenario: three arguments, shown as typed. */
  lemma PingScenario()
    ensures RunJob("ping", "-c 4 8.8.8.8") == Job("ping", ["-c", "4", "8.8.8.8"])
  {
    var parts := ["-c", "4", "8.8.8.8"];
    assert Join(parts, ' ') == "-c 4 8.8.8.8" by {
      assert Join(parts[2..], ' ') == "8.8.8.8";
      assert Join(parts[1..], ' ') == "4 8.8.8.8";
    }
    RunJobOfJoined("ping", parts);
  }

  /** Two adjacent spaces give an empty argument between them. */
  lemma AdjacentSpaces()
    ensures RunJob("ls", "-l  /tmp").args == ["-l", "", "/tmp"]
  {
    var parts := ["-l", "", "/tmp"];
    assert Join(parts, ' ') == "-l  /tmp" by {
      assert Join(parts[2..], ' ') == "/tmp";
      assert Join(parts[1..], ' ') == " /tmp";
    }
    RunJobOfJoined("ls", parts);
  }
}
