/** What the translators see of the Mythic container library: the command
    schema records, the task they are handed, the response they fill in,
    the task's argument store, and the file-storage calls. The library's
    own code is not part of this model; its calls are abstract functions
    fixed when an object is built, and the objects log what was asked of
    them so that the translators' contracts can say which calls happen. */
module Mythic {
  import opened Wrappers
  import opened Jobs
  import Base64

  // ----- Command schema (agent_structs.Command and CommandParameter) -----

  /** The parameter kinds the two commands declare: plain text, one choice
      from a dynamically queried list, and an uploaded file. */
  datatype ParameterType = String | ChooseOne | File

  /** One `ParameterGroupInformation` entry. */
  datatype GroupInfo = GroupInfo(required: bool, groupName: string, uiModalPosition: nat)

  /** A `CommandParameter`, without its display-only fields. */
  datatype Parameter = Parameter(
    name: string,
    cliName: string,
    parameterType: ParameterType,
    defaultValue: Option<string>,
    groups: seq<GroupInfo>)

  /** A `Command`, without its display-only and registration fields. */
  datatype Command = Command(name: string, needsAdminPermissions: bool, parameters: seq<Parameter>)

  /** Does `p` take part in the parameter group named `group`? */
  predicate InGroup(p: Parameter, group: string) {
    exists i :: 0 <= i < |p.groups| && p.groups[i].groupName == group
  }

  /** Must `p` be supplied when the parameter group `group` is chosen? */
  predicate RequiredIn(p: Parameter, group: string) {
    exists i :: 0 <= i < |p.groups| && p.groups[i].groupName == group && p.groups[i].required
  }

  /** Is `r` what is left of `ps` after dropping some of its elements, the
      rest kept in their order? */
  predicate Subsequence<T(==)>(r: seq<T>, ps: seq<T>)
    decreases |ps|
  {
    if |r| == 0 then true
    else if |ps| == 0 then false
    else (r[0] == ps[0] && Subsequence(r[1..], ps[1..])) || Subsequence(r, ps[1..])
  }

  /** The parameters of `ps` that take part in `group`, in declaration order. */
  function Members(ps: seq<Parameter>, group: string): (r: seq<Parameter>)
    ensures |r| <= |ps|
    ensures Subsequence(r, ps)
    ensures forall p :: p in r <==> p in ps && InGroup(p, group)
  {
    if |ps| == 0 then []
    else if InGroup(ps[0], group) then [ps[0]] + Members(ps[1..], group)
    else Members(ps[1..], group)
  }

  /** The schema lookup: the parameters a command offers in one group. */
  function GroupParameters(c: Command, group: string): (ps: seq<Parameter>) {
    Members(c.parameters, group)
  }

  /** Every group name some parameter of `c` declares. */
  function DeclaredGroups(c: Command): (groups: set<string>) {
    set p, i | p in c.parameters && 0 <= i < |p.groups| :: p.groups[i].groupName
  }

  // ----- One task and its response -----

  /** The parts of `PTTaskMessageAllData.Task` the translators read. */
  datatype TaskMessage = TaskMessage(id: int, parameterGroupName: string)

  /** The parts of `PTTaskCreateTaskingMessageResponse` the translators set.
      `error` is Go's zero value `""` unless set; `displayParams` is the
      `*string`, `None` for nil. */
  datatype Response = Response(taskId: int, success: bool, error: string, displayParams: Option<string>)

  /** A response for task `id` before any of its fields are decided. */
  function Fresh(id: int): (resp: Response) {
    Response(id, false, "", None)
  }

  /** The response of a task abandoned with error message `msg`. */
  function Failed(id: int, msg: string): (resp: Response) {
    Response(id, false, msg, None)
  }

  /** `ConvertMerlinJobToMythicTask`: serialises a Merlin job of a given type
      into the manual-arguments string Mythic forwards, or fails. */
  type Converter = (Job, JobType) -> Result<string, string>

  /** How a translator ends once its job is built: if `convert` rejects the
      job the task fails with `prefix` and the converter's error and the
      manual arguments stay `before`; otherwise the manual arguments become
      the converted job and the task succeeds, showing `display`. */
  predicate Finished(resp: Response, id: int, convert: Converter, job: Job, jobType: JobType,
                     display: string, prefix: string, after: Option<string>, before: Option<string>)
  {
    match convert(job, jobType)
    case Failure(e) => resp == Failed(id, prefix + e) && after == before
    case Success(m) => resp == Response(id, true, "", Some(display)) && after == Some(m)
  }

  /** The value behind `GetArg`, a Go `interface{}`: a string or anything else. */
  datatype ArgValue = StringValue(s: string) | OtherValue

  /** `task.Args`: the arguments Mythic parsed for the task, read through two
      abstract getters, and the manual arguments the translator sets. The
      ghost log `requested` records each argument name asked for. */
  class TaskArgs {
    /** What `GetArg(name)` answers. */
    const arg: string -> Result<ArgValue, string>
    /** What `GetStringArg(name)` answers. */
    const stringArg: string -> Result<string, string>
    /** The value last passed to `SetManualArgs`, `None` if never called. */
    var manualArgs: Option<string>
    ghost var requested: seq<string>

    constructor (arg: string -> Result<ArgValue, string>, stringArg: string -> Result<string, string>)
      ensures this.arg == arg && this.stringArg == stringArg
      ensures manualArgs == None && requested == []
    {
      this.arg := arg;
      this.stringArg := stringArg;
      manualArgs := None;
      requested := [];
    }

    /** A present argument that `v.(string)` can assert to a string. */
    predicate IsString(name: string) {
      arg(name).Success? ==> arg(name).value.StringValue?
    }

    method GetArg(name: string) returns (r: Result<ArgValue, string>)
      modifies this`requested
      ensures r == arg(name)
      ensures requested == old(requested) + [name]
    {
      r := arg(name);
      requested := requested + [name];
    }

    method GetStringArg(name: string) returns (r: Result<string, string>)
      modifies this`requested
      ensures r == stringArg(name)
      ensures requested == old(requested) + [name]
    {
      r := stringArg(name);
      requested := requested + [name];
    }

    method SetManualArgs(s: string)
      modifies this`manualArgs
      ensures manualArgs == Some(s)
    {
      manualArgs := Some(s);
    }
  }

  // ----- File storage (the container's file RPCs) -----

  /** One call to file storage. */
  datatype FileRequest = ByName(name: string) | ContentsById(id: string) | NameById(id: string)

  /** Mythic's file storage as the translators reach it: three abstract
      lookups, each possibly failing, and a ghost log of the calls made. */
  class FileStorage {
    /** `GetFileByName`: the contents of a file registered under a name. */
    const byName: string -> Result<seq<Base64.byte>, string>
    /** `GetFileContents`: the contents of the file with an opaque id. */
    const contentsById: string -> Result<seq<Base64.byte>, string>
    /** `GetFileName`: the original name of the file with an opaque id. */
    const nameById: string -> Result<string, string>
    ghost var requests: seq<FileRequest>

    constructor (byName: string -> Result<seq<Base64.byte>, string>,
                 contentsById: string -> Result<seq<Base64.byte>, string>,
                 nameById: string -> Result<string, string>)
      ensures this.byName == byName && this.contentsById == contentsById && this.nameById == nameById
      ensures requests == []
    {
      this.byName := byName;
      this.contentsById := contentsById;
      this.nameById := nameById;
      requests := [];
    }

    method GetFileByName(name: string) returns (r: Result<seq<Base64.byte>, string>)
      modifies this
      ensures r == byName(name)
      ensures requests == old(requests) + [ByName(name)]
    {
      r := byName(name);
      requests := requests + [ByName(name)];
    }

    method GetFileContents(id: string) returns (r: Result<seq<Base64.byte>, string>)
      modifies this
      ensures r == contentsById(id)
      ensures requests == old(requests) + [ContentsById(id)]
    {
      r := contentsById(id);
      requests := requests + [ContentsById(id)];
    }

    method GetFileName(id: string) returns (r: Result<string, string>)
      modifies this
      ensures r == nameById(id)
      ensures requests == old(requests) + [NameById(id)]
    {
      r := nameById(id);
      requests := requests + [NameById(id)];
    }
  }
}
