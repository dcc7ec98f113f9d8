# Merlin's Mythic tasking translators, modelled in Dafny

Merlin's Mythic payload-type container turns an operator's task into a
Merlin job with two create-tasking translators:

- `load-assembly` picks a .NET assembly by parameter group. The group name
  is matched ignoring case. In "Default" the assembly is a file registered
  earlier, looked up by its name. In "New File" it is an upload, looked up
  by its id: first its contents, then its original name. The job is the
  `clr` verb with `load-assembly`, the assembly in standard padded base 64
  (section 4 of RFC 4648) and the file name.
- `run` reads `executable` and `arguments`. It cuts a non-empty argument
  string at every single space, with no quoting. The job's command is the
  executable itself, and the job is converted with the CMD job type. The
  task shows `executable + " " + arguments`.

Both translators stop at the first failure. Each failure leaves a response
with `success == false`, a non-empty error message and no display string.
Only on success do they set the task's manual arguments to the converted
job.

Files, one module each:

- `wrappers.dfy`: `Option` and `Result`.
- `base64.dfy`: the RFC 4648 encoder (Go's `base64.StdEncoding.EncodeToString`).
  It comes with a reference decoder, and lemmas for the round trip, length,
  alphabet and the RFC's test vectors.
- `gostrings.dfy`: Go's `strings.ToLower` (as far as group matching needs it),
  and `strings.Split` on one character with `strings.Join` as its inverse.
  Both round trips are proved.
- `jobs.dfy`: Merlin's `jobs.Command` and the two job types used.
- `mythic.dfy`: the Mythic schema records and the task and response records.
  Two classes stand for the foreign collaborators. `TaskArgs` has abstract
  getters, a `manualArgs` field and a log of the argument names read.
  `FileStorage` has three abstract lookups and a log of the calls made.
- `loadassembly.dfy`, `run.dfy`: each command's schema, job builder and
  translator.

The translators are imperative methods that walk the source step by step.
Their postconditions give the whole response, the new manual arguments and
the exact sequence of argument reads and file calls, for every path. This
is how "no lookup happens" and "`GetFileName` is not called" are stated.
The collaborators the code calls but does not define are not modelled by
their code. These are the argument getters, the three file RPCs and
`ConvertMerlinJobToMythicTask`. Each is an arbitrary, possibly failing
function fixed when its object is built, or passed in as a parameter.

The command token of the `run` job is the executable itself. `jobs.CMD` is
only the job *type* passed to the converter
(`Payload_Type/merlin/container/commands/run.go:134-143`). `Run.PingScenario`
pins this.

## Model

| member | source | states |
|---|---|---|
| `Base64.DecodeEncode` | Payload_Type/merlin/mythic/container/commands/loadAssembly.go:154 | decoding the standard base 64 of any byte string gives back exactly those bytes |
| `Base64.EncodeInjective` | Payload_Type/merlin/mythic/container/commands/loadAssembly.go:154 | two byte strings with the same encoding are equal |
| `Base64.EncodeLength` | Payload_Type/merlin/mythic/container/commands/loadAssembly.go:154 | an encoding has four characters per started group of three bytes |
| `Base64.EncodeAlphabet` | Payload_Type/merlin/mythic/container/commands/loadAssembly.go:154 | every character of an encoding is in the RFC 4648 alphabet, apart from at most two `=` at the end |
| `Base64.RfcTestVectors` | Payload_Type/merlin/mythic/container/commands/loadAssembly.go:154 | the encoder gives the RFC 4648 section 10 results for "", "f", "fo", "foo" and "foobar" |
| `Base64.RfcPaddedVectors` | Payload_Type/merlin/mythic/container/commands/loadAssembly.go:154 | the encoder gives the RFC 4648 section 10 results for "foob" and "fooba", where a padded quantum follows a full one |
| `Base64.EncodeZeroFill` | Payload_Type/merlin/mythic/container/commands/loadAssembly.go:154 | the bits that fill the last character before `==` (four bits) or `=` (two bits) are zero |
| `GoStrings.LowerRune` | Payload_Type/merlin/mythic/container/commands/loadAssembly.go:112 | a character lowers to an ASCII lower-case letter only if it is one, is an upper-case one, or is U+0130 or U+212A |
| `GoStrings.ToLowerVariant` | Payload_Type/merlin/mythic/container/commands/loadAssembly.go:112 | a string lowers to a text of lower-case ASCII letters and spaces if and only if each of its characters is that text's character, its ASCII capital, or U+0130 for `i` or U+212A for `k` |
| `GoStrings.Split` | Payload_Type/merlin/container/commands/run.go:140 | splitting gives one more piece than the separator has occurrences, so adjacent spaces give empty pieces |
| `GoStrings.SplitPiecesAreFree` | Payload_Type/merlin/container/commands/run.go:140 | no piece of a split contains the separator |
| `GoStrings.JoinSplit` | Payload_Type/merlin/container/commands/run.go:140 | joining the pieces with the separator gives back the split string |
| `GoStrings.SplitJoin` | Payload_Type/merlin/container/commands/run.go:140 | splitting a join of a non-empty list of separator-free pieces gives back the list |
| `Mythic.Members` | Payload_Type/merlin/mythic/container/commands/loadAssembly.go:46-79 | the schema lookup by group keeps exactly the parameters that have a membership in that group, in their declaration order |
| `Mythic.TaskArgs.GetArg` | Payload_Type/merlin/mythic/container/commands/loadAssembly.go:114 | returns the getter's answer for the name and logs that the name was read |
| `Mythic.TaskArgs.GetStringArg` | Payload_Type/merlin/container/commands/run.go:116 | returns the string getter's answer for the name and logs that the name was read |
| `Mythic.TaskArgs.SetManualArgs` | Payload_Type/merlin/mythic/container/commands/loadAssembly.go:164 | the task's manual arguments become the given string |
| `Mythic.FileStorage.GetFileByName` | Payload_Type/merlin/mythic/container/commands/loadAssembly.go:121 | returns the by-name lookup's answer and logs one by-name call |
| `Mythic.FileStorage.GetFileContents` | Payload_Type/merlin/mythic/container/commands/loadAssembly.go:134 | returns the contents lookup's answer and logs one contents-by-id call |
| `Mythic.FileStorage.GetFileName` | Payload_Type/merlin/mythic/container/commands/loadAssembly.go:140 | returns the name lookup's answer and logs one name-by-id call |
| `LoadAssembly.FilenameOnlyInDefault` | Payload_Type/merlin/mythic/container/commands/loadAssembly.go:46-53 | `filename` takes part in the group "Default" and no other, and is required there |
| `LoadAssembly.FileOnlyInNewFile` | Payload_Type/merlin/mythic/container/commands/loadAssembly.go:70-77 | `file` takes part in the group "New File" and no other, and is required there |
| `LoadAssembly.SchemaGroups` | Payload_Type/merlin/mythic/container/commands/loadAssembly.go:79-93 | the command declares exactly the groups "Default" and "New File"; each offers only its one parameter |
| `LoadAssembly.ParseGroupIgnoresCase` | Payload_Type/merlin/mythic/container/commands/loadAssembly.go:112-113 | a group name selects the by-name branch if and only if it is a casing of "default", the upload branch if and only if it is a casing of "new file", and no branch otherwise |
| `LoadAssembly.MixedCaseScenario` | Payload_Type/merlin/mythic/container/commands/loadAssembly.go:112-113 | "DeFaUlT" selects the by-name branch |
| `LoadAssembly.DottedCapitalIScenario` | Payload_Type/merlin/mythic/container/commands/loadAssembly.go:112-127 | "NEW F" U+0130 "LE" selects the upload branch, because U+0130 lowers to `i` |
| `LoadAssembly.NearMissScenario` | Payload_Type/merlin/mythic/container/commands/loadAssembly.go:146-149 | "Defaults" selects no branch |
| `LoadAssembly.DispatchMatchesSchema` | Payload_Type/merlin/mythic/container/commands/loadAssembly.go:112-149 | the translator accepts a group name if and only if it is a casing of the lower-cased name of a group the schema declares |
| `LoadAssembly.AssemblyJob` | Payload_Type/merlin/mythic/container/commands/loadAssembly.go:152-155 | the job is `clr` with exactly three arguments: `load-assembly`, a base 64 text that decodes to the assembly, and the file name |
| `LoadAssembly.UploadScenario` | Payload_Type/merlin/mythic/container/commands/loadAssembly.go:152-155 | the bytes `4D 5A` named `evil.dll` give `clr ["load-assembly", "TVo=", "evil.dll"]` |
| `LoadAssembly.CreateLoadAssemblyTask` | Payload_Type/merlin/mythic/container/commands/loadAssembly.go:106-170 | for each group and each failure point: the exact response, the argument read and the file calls made so far, and that nothing later is called. An unknown group reads and calls nothing. Manual arguments change only on success, to the converted job, and the file name is shown |
| `Run.SchemaGroups` | Payload_Type/merlin/container/commands/run.go:37-85 | "Default" is the only group; `executable` is required in it, `arguments` is optional with default `""` |
| `Run.RunJob` | Payload_Type/merlin/container/commands/run.go:134-141 | the job's command is the executable unchanged. Its arguments are empty exactly when the argument string is, and otherwise one more than its spaces, none containing a space. Joined with spaces they give back the argument string |
| `Run.RunJobInjective` | Payload_Type/merlin/container/commands/run.go:139-141 | different argument strings never give the same job |
| `Run.RunJobOfJoined` | Payload_Type/merlin/container/commands/run.go:140 | space-free arguments joined with spaces come back unchanged as the job's arguments |
| `Run.PingScenario` | Payload_Type/merlin/container/commands/run.go:134-141 | `ping` with `-c 4 8.8.8.8` gives the job `ping ["-c", "4", "8.8.8.8"]` |
| `Run.AdjacentSpaces` | Payload_Type/merlin/container/commands/run.go:140 | two adjacent spaces give an empty argument between them |
| `Run.RunCreateTask` | Payload_Type/merlin/container/commands/run.go:112-159 | an unreadable `executable` fails with its message before `arguments` is read. An unreadable `arguments` fails with its message. Otherwise the job is converted as CMD: on failure the manual arguments are untouched; on success they are the converted job and `executable + " " + arguments` is shown, trailing space included |

## Left out

- The Mythic library's argument getters, `GetFileByName`, `GetFileContents`, `GetFileName` and `ConvertMerlinJobToMythicTask` are not part of this model. They are foreign code or RPCs. The model uses arbitrary, possibly failing functions instead, so every property holds whatever they answer.
- `GetFileList`, the dynamic query behind the `filename` choices, is left out. It only feeds the operator's UI.
- The Go panic in the type assertion `v.(string)` is not modelled. `LoadAssembly.CreateLoadAssemblyTask` instead requires that a present argument of the chosen group is a string.
- `logging.LogError` is left out. It is telemetry.
- The schema fields that only serve display or registration are left out: descriptions, help text, modal display names, author, version, supported OS lists, MITRE mappings, the nil choice and browser-script fields, and the task-function hooks. So is registration with Mythic.
- `GoStrings.LowerRune` is weaker than Go's `unicode.ToLower`. It maps only the ASCII letters, U+0130 and U+212A. Go also lowers other non-ASCII letters, but always to non-ASCII ones, so comparing with "default" and "new file" gives the same answer.
- `Base64.Decode` is a reference inverse, not a model of Go's decoder. It rejects line breaks and ignores spare low bits in a padded last quantum; `Base64.EncodeZeroFill` states separately that the encoder leaves those bits zero.
- `Run.RunJob`: the model does not tell a Go nil slice from an empty one. With an empty argument string, Go leaves `job.Args` nil, and the converter may serialise that differently from an empty list.
- `resp.TaskID` is kept as an unbounded integer; the width of Mythic's task id is not modelled.
- Concurrency is left out. Each task is handled on its own, and the translators share no state.
