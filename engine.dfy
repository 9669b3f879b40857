/**
 * The output directory as mutable state, and `process_image` as the loop
 * that re-counts pattern matches and writes into it.
 */
module Engine {
  import opened Options
  import opened Naming
  import opened Oracle
  import opened Reconcile

  /** The output directory: file name to content. */
  class OutputDir {
    var files: map<string, Bytes>

    constructor (initial: map<string, Bytes>)
      ensures files == initial
    {
      files := initial;
    }

    /**
     * `process_image` for one source image. `image` is the input folder's
     * entry for it (None when it is not a regular file); `steps` supplies,
     * per iteration, the random draw and the fate of the request.
     */
    method ProcessImage(image: Option<SourceFile>, job: Job, steps: seq<Step>)
      returns (rest: seq<Step>, sent: nat, exit: Exit)
      modifies this
      ensures Run(files, rest, sent, exit) == ImageRun(old(files), image, job, steps)
      ensures Preserves(old(files), files)
    {
      ImageRunWrites(files, image, job, steps);
      rest, sent := steps, 0;
      if image.None? {
        exit := ImageMissing;
        return;
      }
      if image.value.Unreadable? {
        exit := ImageUnreadable;
        return;
      }
      var matches := CountMatching(files.Keys, job.base, job.params);
      if matches >= job.iterations {
        exit := AlreadyEnough;
        return;
      }
      ghost var total := LoopRun(files, job, steps);
      while KeepGoing(files, job) && rest != []
        invariant var r := LoopRun(files, job, rest);
          r.files == total.files && r.rest == total.rest && r.exit == total.exit
          && sent + r.sent == total.sent
        decreases |rest|
      {
        var step := rest[0];
        var seedCurrent := if job.seed.None? then step.draw else job.seed.value;
        var outFilename := BuildName(Artifact(job.base, job.params, seedCurrent));
        rest := rest[1..];
        if outFilename !in files {
          sent := sent + 1;
          match step.outcome {
            case RequestFailed =>
            case WriteFailed =>
            case Written(content) =>
              files := files[outFilename := content];
          }
        }
      }
      exit := if KeepGoing(files, job) then StepsExhausted else TargetReached;
    }
  }
}
