/** The `load-assembly` command: its schema, `loadAssembly()`, and its
    create-tasking translator, `createLoadAssemblyTask`, which finds the .NET
    assembly the operator chose and turns it into a Merlin `clr` job. */
module LoadAssembly {
  import opened Wrappers
  import opened GoStrings
  import opened Jobs
  import opened Mythic
  import Base64

  // ----- Schema -----

  /** The `filename` parameter: a file registered earlier, chosen by name. */
  function FilenameParameter(): (p: Parameter) {
    Parameter("filename", "filename", ChooseOne, None, [GroupInfo(true, "Default", 0)])
  }

  /** The `file` parameter: a new file uploaded with the task. */
  function FileParameter(): (p: Parameter) {
    Parameter("file", "file", File, None, [GroupInfo(true, "New File", 0)])
  }

  /** `loadAssembly()`: the command as registered with Mythic. */
  function LoadAssemblyCommand(): (c: Command) {
    Command("load-assembly", false, [FilenameParameter(), FileParameter()])
  }

  /** `filename` takes part in "Default" only, and is required there. */
  lemma FilenameOnlyInDefault()
    ensures forall g :: InGroup(FilenameParameter(), g) <==> g == "Default"
    ensures RequiredIn(FilenameParameter(), "Default")
  {
    assert FilenameParameter().groups[0].groupName == "Default";
  }

  /** `file` takes part in "New File" only, and is required there. */
  lemma FileOnlyInNewFile()
    ensures forall g :: InGroup(FileParameter(), g) <==> g == "New File"
    ensures RequiredIn(FileParameter(), "New File")
  {
    assert FileParameter().groups[0].groupName == "New File";
  }

  /** The schema declares exactly the two groups, and each offers its one
      parameter. */
  lemma SchemaGroups()
    ensures DeclaredGroups(LoadAssemblyCommand()) == {"Default", "New File"}
    ensures GroupParameters(LoadAssemblyCommand(), "Default") == [FilenameParameter()]
    ensures GroupParameters(LoadAssemblyCommand(), "New File") == [FileParameter()]
  {
    var c := LoadAssemblyCommand();
    FilenameOnlyInDefault();
    FileOnlyInNewFile();
    assert c.parameters[1..] == [FileParameter()];
    assert forall p, i | p in c.parameters && 0 <= i < |p.groups| :: p.groups[i].groupName in {"Default", "New File"};
    assert FilenameParameter().groups[0].groupName in DeclaredGroups(c);
    assert FileParameter().groups[0].groupName in DeclaredGroups(c);
  }

  // ----- Parameter-group dispatch -----

  /** The two parameter groups. */
  datatype Group = Default | NewFile

  /** The `switch strings.ToLower(ParameterGroupName)` of the translator;
      `None` is its `default:` arm. */
  function ParseGroup(name: string): (g: Option<Group>) {
    var lower := ToLower(name);
    if lower == "default" then Some(Default)
    else if lower == "new file" then Some(NewFile)
    else None
  }

  /** The group is chosen ignoring case: every casing of "default" selects
      the by-name branch, every casing of "new file" the upload branch, and
      nothing else selects a branch. */
  lemma ParseGroupIgnoresCase(name: string)
    ensures ParseGroup(name) == Some(Default) <==> CaseVariant(name, "default")
    ensures ParseGroup(name) == Some(NewFile) <==> CaseVariant(name, "new file")
    ensures ParseGroup(name).None? <==> !CaseVariant(name, "default") && !CaseVariant(name, "new file")
  {
    ToLowerVariant(name, "default");
    ToLowerVariant(name, "new file");
  }

  /** Mixed case selects the by-name branch. */
  lemma MixedCaseScenario()
    ensures ParseGroup("DeFaUlT") == Some(Default)
  {
    ParseGroupIgnoresCase("DeFaUlT");
    assert CaseVariant("DeFaUlT", "default");
  }

  /** The dotted capital I, U+0130, lowers to `i`, so it selects the upload
      branch in place of an `I`. */
  lemma DottedCapitalIScenario()
    ensures ParseGroup("NEW F\U{0130}LE") == Some(NewFile)
  {
    ParseGroupIgnoresCase("NEW F\U{0130}LE");
    assert CaseVariant("NEW F\U{0130}LE", "new file");
  }

  /** A name that only begins with a group name selects nothing. */
  lemma NearMissScenario()
    ensures ParseGroup("Defaults") == None
  {
    ParseGroupIgnoresCase("Defaults");
    assert !CharVariant("Defaults"[0], "new file"[0]);
  }

  /** The translator accepts exactly the groups the schema declares, in any
      casing. */
  lemma DispatchMatchesSchema(name: string)
    ensures ParseGroup(name).Some? <==>
      exists g :: g in DeclaredGroups(LoadAssemblyCommand()) && CaseVariant(name, ToLower(g))
  {
    SchemaGroups();
    ParseGroupIgnoresCase(name);
    assert ToLower("Default") == "default";
    assert ToLower("New File") == "new file";
  }

  // ----- The job -----

  /** The Merlin job for an assembly: the `clr` verb, then `load-assembly`,
      the assembly as standard padded base 64, and its file name. */
  function AssemblyJob(assembly: seq<Base64.byte>, filename: string): (job: Job)
    ensures job.command == "clr" && |job.args| == 3
    ensures job.args[0] == "load-assembly" && job.args[2] == filename
    ensures Base64.Decode(job.args[1]) == Some(assembly)
    ensures |job.args[1]| == 4 * ((|assembly| + 2) / 3)
  {
    Base64.DecodeEncode(assembly);
    Base64.EncodeLength(assembly);
    Job("clr", ["load-assembly", Base64.Encode(assembly), filename])
  }

  /** Prefix of the error when the converter rejects the job. */
  const ConvertErrorPrefix: string := "mythic/container/commands/loadAssembly/createLoadAssemblyTask(): "

  // ----- The translator -----

  /** `createLoadAssemblyTask`. The group picks how the assembly is found:
      in "Default" by the registered name in `filename`, in "New File" by
      the upload id in `file`, whose contents and then whose original name
      are fetched. The first failure ends the task; on success the converted
      job becomes the task's manual arguments and the file name is shown. */
  method CreateLoadAssemblyTask(task: TaskMessage, args: TaskArgs, files: FileStorage, convert: Converter)
    returns (resp: Response)
    requires ParseGroup(task.parameterGroupName) == Some(Default) ==> args.IsString("filename")
    requires ParseGroup(task.parameterGroupName) == Some(NewFile) ==> args.IsString("file")
    modifies args, files
    ensures resp.taskId == task.id
    ensures resp.success ==> resp.error == "" && resp.displayParams.Some? && args.manualArgs.Some?
    ensures !resp.success ==> |resp.error| > 0
    ensures !resp.success ==> resp.displayParams.None?
    ensures !resp.success ==> args.manualArgs == old(args.manualArgs)
    // An unknown group touches nothing.
    ensures ParseGroup(task.parameterGroupName).None? ==>
      && resp == Failed(task.id, "unknown parameter group: " + task.parameterGroupName)
      && args.requested == old(args.requested)
      && files.requests == old(files.requests)
    // "Default": the assembly registered under the name in `filename`.
    ensures ParseGroup(task.parameterGroupName) == Some(Default) ==>
      && args.requested == old(args.requested) + ["filename"]
      && match args.arg("filename")
         case Failure(e) =>
           && resp == Failed(task.id, "there was an error getting the \"filename\" command argument: " + e)
           && files.requests == old(files.requests)
         case Success(v) =>
           && files.requests == old(files.requests) + [ByName(v.s)]
           && match files.byName(v.s)
              case Failure(e) =>
                resp == Failed(task.id, "there was an error getting the file by its name \"" + v.s + "\": " + e)
              case Success(assembly) =>
                Finished(resp, task.id, convert, AssemblyJob(assembly, v.s), Module, v.s,
                         ConvertErrorPrefix, args.manualArgs, old(args.manualArgs))
    // "New File": the contents, then the original name, of the upload in `file`.
    ensures ParseGroup(task.parameterGroupName) == Some(NewFile) ==>
      && args.requested == old(args.requested) + ["file"]
      && match args.arg("file")
         case Failure(e) =>
           && resp == Failed(task.id, "there was an error getting the \"file\" command argument: " + e)
           && files.requests == old(files.requests)
         case Success(v) =>
           match files.contentsById(v.s)
           case Failure(e) =>
             && files.requests == old(files.requests) + [ContentsById(v.s)]
             && resp == Failed(task.id, "there was an error getting the file by its id \"" + v.s + "\": " + e)
           case Success(assembly) =>
             && files.requests == old(files.requests) + [ContentsById(v.s), NameById(v.s)]
             && match files.nameById(v.s)
                case Failure(e) =>
                  resp == Failed(task.id, "there was an error getting the file name by its id \"" + v.s + "\": " + e)
                case Success(filename) =>
                  Finished(resp, task.id, convert, AssemblyJob(assembly, filename), Module, filename,
                           ConvertErrorPrefix, args.manualArgs, old(args.manualArgs))
  {
    resp := Fresh(task.id);

    var assembly: seq<Base64.byte>;
    var filename: string;
    match ParseGroup(task.parameterGroupName) {
      case Some(Default) =>
        var v := args.GetArg("filename");
        if v.Failure? {
          resp := resp.(error := "there was an error getting the \"filename\" command argument: " + v.error,
                        success := false);
          return;
        }
        filename := v.value.s;
        var contents := files.GetFileByName(filename);
        if contents.Failure? {
          resp := resp.(error := "there was an error getting the file by its name \"" + v.value.s + "\": " + contents.error,
                        success := false);
          return;
        }
        assembly := contents.value;
      case Some(NewFile) =>
        var v := args.GetArg("file");
        if v.Failure? {
          resp := resp.(error := "there was an error getting the \"file\" command argument: " + v.error,
                        success := false);
          return;
        }
        var contents := files.GetFileContents(v.value.s);
        if contents.Failure? {
          resp := resp.(error := "there was an error getting the file by its id \"" + v.value.s + "\": " + contents.error,
                        success := false);
          return;
        }
        assembly := contents.value;
        var name := files.GetFileName(v.value.s);
        if name.Failure? {
          resp := resp.(error := "there was an error getting the file name by its id \"" + v.value.s + "\": " + name.error,
                        success := false);
          return;
        }
        filename := name.value;
      case None =>
        resp := resp.(error := "unknown parameter group: " + task.parameterGroupName, success := false);
        return;
    }

    var job := AssemblyJob(assembly, filename);
    var mythicJob := convert(job, Module);
    if mythicJob.Failure? {
      resp := resp.(error := ConvertErrorPrefix + mythicJob.error, success := false);
      return;
    }
    args.SetManualArgs(mythicJob.value);
    resp := resp.(displayParams := Some(filename), success := true);
  }

  /** The upload scenario: bytes `4D 5A` ("MZ") named `evil.dll`. */
  lemma UploadScenario()
    ensures AssemblyJob([0x4D, 0x5A], "evil.dll") == Job("clr", ["load-assembly", "TVo=", "evil.dll"])
  {
    assert Base64.Encode([0x4D, 0x5A]) == "TVo=";
  }
}
