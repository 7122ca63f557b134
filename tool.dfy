/**
 * The external rule-learning tool (`java -jar <jar> ...`) as the backend sees
 * it: where its jar is configured, and what came of one attempt to run it.
 */
module Tool {
  import opened Wrappers
  import opened Paths

  /** The outcome of `Process.Start` followed by reading both streams to the end
      and waiting for exit.  `StartFailed`: `Process.Start` returned null;
      `StartThrew`: it threw (the binary could not be launched). */
  datatype ProcessOutcome =
    | StartFailed
    | StartThrew(message: string)
    | Exited(exitCode: int, stdout: string, stderr: string)

  /** `string.IsNullOrEmpty(_configuration["TrainingSettings:JarPath"])` is false. */
  predicate JarConfigured(jarSetting: Option<string>) {
    jarSetting.Some? && jarSetting.value != ""
  }

  /** The jar is configured and the file is there. */
  predicate JarAvailable(jarSetting: Option<string>, disk: Disk) {
    JarConfigured(jarSetting) && FileExists(disk, jarSetting.value)
  }

  /** `"<s>"`, the way the backend quotes a path on the java command line. */
  function Quoted(s: string): string {
    "\"" + s + "\""
  }
}
