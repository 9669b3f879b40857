/**
 * The entry point: the seed/iterations coercion, the input-folder check, and
 * the dispatch to one of the two passes. Also the two places where the
 * program as written departs from what it evidently means to do.
 */
module Batch {
  import opened Options
  import opened Naming
  import opened Oracle
  import opened Reconcile
  import opened Engine
  import opened Drivers

  /**
   * A configured seed forces a single iteration. A seed of 0 counts as
   * configured: "set" means "not None".
   */
  function CoerceIterations(cfg: Config): (r: Config)
    ensures r.seed.Some? ==> r.iterations == 1
    ensures r.seed.None? ==> r == cfg
    ensures r == cfg.(iterations := r.iterations)
  {
    if cfg.seed.Some? && cfg.iterations != 1 then cfg.(iterations := 1) else cfg
  }

  /** The same test as written: Python truthiness, so a seed of 0 leaves the iterations alone. */
  function CoerceIterationsAsWritten(cfg: Config): (r: Config)
    ensures cfg.seed.Some? && cfg.seed.value != 0 ==> r.iterations == 1
    ensures cfg.seed.None? || cfg.seed.value == 0 ==> r == cfg
    ensures r == cfg.(iterations := r.iterations)
  {
    if cfg.seed.Some? && cfg.seed.value != 0 && cfg.iterations != 1 then cfg.(iterations := 1) else cfg
  }

  /** After coercion a fixed seed never collides: each standard-mode iteration sends a request. */
  lemma CoercedFixedSeedAlwaysSends(cfg: Config, f: string, files: map<string, Bytes>, steps: seq<Step>)
    requires cfg.seed.Some?
    ensures var r := LoopRun(files, StandardJob(CoerceIterations(cfg), f), steps);
      r.sent == |steps| - |r.rest|
  {
    SingleTargetAlwaysSends(files, StandardJob(CoerceIterations(cfg), f), steps);
  }

  /** After coercion a fixed seed finishes at its first successful write. */
  lemma CoercedFixedSeedFinishes(cfg: Config, f: string, files: map<string, Bytes>, steps: seq<Step>, k: nat)
    requires cfg.seed.Some?
    requires KeepGoing(files, StandardJob(CoerceIterations(cfg), f))
    requires k < |steps| && steps[k].outcome.Written?
    requires forall j :: 0 <= j < k ==> !steps[j].outcome.Written?
    ensures LoopRun(files, StandardJob(CoerceIterations(cfg), f), steps).exit == TargetReached
  {
    SingleTargetFirstWriteEnds(files, StandardJob(CoerceIterations(cfg), f), steps, k);
  }

  /**
   * As written, seed 0 with three iterations is not coerced, and the loop of
   * an image without artifacts never reaches its target, whatever the
   * environment supplies. The loop is run with the standard pass's job, that
   * is with the call at generate_glb.py:229 corrected: as written that call raises
   * first, and the upscale pass always asks for one iteration, so in the
   * program as written this defect is latent.
   */
  lemma ZeroSeedNeverFinishesAsWritten(p: Params, f: string, steps: seq<Step>)
    ensures var cfg := CoerceIterationsAsWritten(Config(3, Some(0), p, false));
      && cfg.iterations == 3
      && LoopRun(map[], StandardJob(cfg, f), steps).exit == StepsExhausted
  {
    var cfg := CoerceIterationsAsWritten(Config(3, Some(0), p, false));
    var job := StandardJob(cfg, f);
    assert MatchingNames({}, job.base, job.params) == {};
    FixedSeedManyNeverReached(map[], job, steps);
  }

  datatype FolderOutcome = Completed(d: Drive) | TypeErrorRaised(files: map<string, Bytes>)

  /**
   * `process_folder` as written: its call to `process_image` omits the
   * required `upscale` argument, so the first selected image raises
   * `TypeError` before anything is sent or written.
   */
  function ProcessFolderAsWritten(files: map<string, Bytes>, listing: seq<string>,
                                  input: map<string, SourceFile>, steps: seq<Step>): (r: FolderOutcome)
    ensures r.TypeErrorRaised? <==> SelectImages(listing, input) != []
    ensures r.TypeErrorRaised? ==> r.files == files
    ensures r.Completed? ==> r.d == Drive(files, steps, 0)
  {
    if SelectImages(listing, input) == [] then Completed(Drive(files, steps, 0)) else TypeErrorRaised(files)
  }

  /**
   * The as-written driver never generates anything, while the corrected one
   * runs the loop for every selected image: with one image and one
   * successful write, it adds a file.
   */
  lemma FolderTypeErrorShown(files: map<string, Bytes>, f: string, data: Bytes, cfg: Config, content: Bytes)
    requires cfg.iterations == 1 && Count(files, StandardJob(cfg, f)) == 0
    ensures IsImageFile(f, map[f := Readable(data)]) ==>
      ProcessFolderAsWritten(files, [f], map[f := Readable(data)], []) == TypeErrorRaised(files)
    ensures IsImageFile(f, map[f := Readable(data)]) ==>
      |FolderRun(files, [f], map[f := Readable(data)], cfg, [Step(0, Written(content))]).files.Keys| == |files.Keys| + 1
  {
    var input := map[f := Readable(data)];
    var images := SelectImages([f], input);
    if IsImageFile(f, input) {
      assert multiset(images)[f] == 1;
      assert images != [];
      var job := StandardJob(cfg, f);
      var steps := [Step(0, Written(content))];
      SingleTargetFirstWriteEnds(files, job, steps, 0);
      var name := Candidate(job, steps[0]);
      assert FolderRun(files, [f], input, cfg, steps).files == files[name := content];
    }
  }

  datatype BatchResult = InputNotDir | Finished(d: Drive)

  /**
   * `main` after configuration loading. `outputListing` is what the upscale
   * pass's directory walk lists for the output directory when it starts.
   */
  function BatchRun(files: map<string, Bytes>, cfg: Config, inputIsDir: bool, inputListing: seq<string>,
                    input: map<string, SourceFile>, outputListing: seq<string>, steps: seq<Step>): BatchResult
  {
    var c := CoerceIterations(cfg);
    if !inputIsDir then InputNotDir
    else if c.upscale then Finished(UpscaleRun(files, outputListing, c, inputListing, input, steps))
    else Finished(FolderRun(files, SelectImages(inputListing, input), input, c, steps))
  }

  method RunBatch(out: OutputDir, cfg: Config, inputIsDir: bool, inputListing: seq<string>,
                  input: map<string, SourceFile>, outputListing: seq<string>, steps: seq<Step>)
    returns (result: BatchResult)
    modifies out
    ensures result == BatchRun(old(out.files), cfg, inputIsDir, inputListing, input, outputListing, steps)
    ensures out.files == if result.Finished? then result.d.files else old(out.files)
  {
    var c := CoerceIterations(cfg);
    if !inputIsDir {
      return InputNotDir;
    }
    var rest, sent;
    if c.upscale {
      rest, sent := ProcessGlbUpscaling(out, c, outputListing, inputListing, input, steps);
    } else {
      rest, sent := ProcessFolder(out, c, inputListing, input, steps);
    }
    result := Finished(Drive(out.files, rest, sent));
  }

  /** A whole run never overwrites or deletes an existing artifact. */
  lemma BatchNeverOverwrites(files: map<string, Bytes>, cfg: Config, inputIsDir: bool, inputListing: seq<string>,
                             input: map<string, SourceFile>, outputListing: seq<string>, steps: seq<Step>)
    ensures var r := BatchRun(files, cfg, inputIsDir, inputListing, input, outputListing, steps);
      r.Finished? ==> Preserves(files, r.d.files)
  {
    var c := CoerceIterations(cfg);
    if c.upscale {
      UpscaleWrites(files, outputListing, c, inputListing, input, steps);
    } else {
      FolderWrites(files, SelectImages(inputListing, input), input, c, steps);
    }
  }
}
