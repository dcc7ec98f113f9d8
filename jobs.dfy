/** Merlin's job representation (`jobs.Command` and the job types), the
    value the translators build and hand to the converter. The two
    translators import it from different Go packages, `load-assembly` from
    `github.com/Ne0nd0g/merlin/pkg/jobs` and `run` from
    `github.com/Ne0nd0g/merlin-message/jobs`. The model uses one
    definition of the two fields and the two job types they both use. */
module Jobs {

  /** The job types the two translators use: `jobs.CMD` for running a
      program and `jobs.MODULE` for a module such as the CLR loader. */
  datatype JobType = Cmd | Module

  /** `jobs.Command`: the agent-side verb and its ordered string arguments. */
  datatype Job = Job(command: string, args: seq<string>)
}
