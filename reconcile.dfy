/**
 * The reconciliation loop of one source image, as a function of the output
 * directory before the call and of what the environment supplies: for each
 * loop iteration, the random draw and what became of the request.
 */
module Reconcile {
  import opened Options
  import opened Naming
  import opened Oracle

  /** `random.randint(0, 10000000)` includes both ends. */
  const MaxSeed: int := 10000000

  type RandomSeed = s: int | 0 <= s <= MaxSeed

  type Bytes = seq<bv8>

  /** What became of one request: it failed, or it succeeded and the write failed or succeeded. */
  datatype Outcome = RequestFailed | WriteFailed | Written(content: Bytes)

  /**
   * What the environment supplies for one loop iteration. The draw is used
   * only when no seed is fixed; the outcome only when a request is sent.
   */
  datatype Step = Step(draw: RandomSeed, outcome: Outcome)

  /** A regular file in the input folder. */
  datatype SourceFile = Unreadable | Readable(data: Bytes)

  /** The arguments of one `process_image` call that shape the loop. */
  datatype Job = Job(base: string, params: Params, iterations: int, seed: Option<int>, upscale: bool)

  datatype Exit = ImageMissing | ImageUnreadable | AlreadyEnough | TargetReached | StepsExhausted

  /** The directory afterwards, the unused steps, and the number of requests sent. */
  datatype Run = Run(files: map<string, Bytes>, rest: seq<Step>, sent: nat, exit: Exit)

  datatype Attempted = Attempted(files: map<string, Bytes>, sent: bool)

  function Count(files: map<string, Bytes>, job: Job): nat
  {
    CountMatching(files.Keys, job.base, job.params)
  }

  /** The loop condition: no match yet in upscale mode, fewer than wanted otherwise. */
  predicate KeepGoing(files: map<string, Bytes>, job: Job)
  {
    if job.upscale then Count(files, job) == 0 else Count(files, job) < job.iterations
  }

  function SeedFor(job: Job, step: Step): int
  {
    if job.seed.None? then step.draw else job.seed.value
  }

  function Candidate(job: Job, step: Step): string
  {
    BuildName(Artifact(job.base, job.params, SeedFor(job, step)))
  }

  /** A seed the loop may write under: the fixed one, or any possible draw. */
  predicate SeedAllowed(job: Job, s: int)
  {
    if job.seed.Some? then s == job.seed.value else 0 <= s <= MaxSeed
  }

  ghost predicate IsCandidate(job: Job, n: string)
  {
    exists s :: SeedAllowed(job, s) && n == BuildName(Artifact(job.base, job.params, s))
  }

  /** One loop body: skip an existing name, otherwise send and maybe write. */
  function Attempt(files: map<string, Bytes>, job: Job, step: Step): Attempted
  {
    var name := Candidate(job, step);
    if name in files then Attempted(files, false)
    else
      match step.outcome
      case RequestFailed => Attempted(files, true)
      case WriteFailed => Attempted(files, true)
      case Written(content) => Attempted(files[name := content], true)
  }

  /** The `while condition():` loop, re-counting before every iteration. */
  function LoopRun(files: map<string, Bytes>, job: Job, steps: seq<Step>): Run
    decreases |steps|
  {
    if !KeepGoing(files, job) then Run(files, steps, 0, TargetReached)
    else if steps == [] then Run(files, [], 0, StepsExhausted)
    else
      var a := Attempt(files, job, steps[0]);
      var r := LoopRun(a.files, job, steps[1..]);
      r.(sent := r.sent + if a.sent then 1 else 0)
  }

  /** `process_image`: the image checks, the early exit, then the loop. */
  function ImageRun(files: map<string, Bytes>, image: Option<SourceFile>, job: Job, steps: seq<Step>): Run
  {
    match image
    case None => Run(files, steps, 0, ImageMissing)
    case Some(Unreadable) => Run(files, steps, 0, ImageUnreadable)
    case Some(Readable(_)) =>
      if Count(files, job) >= job.iterations then Run(files, steps, 0, AlreadyEnough)
      else LoopRun(files, job, steps)
  }

  predicate Preserves(before: map<string, Bytes>, after: map<string, Bytes>)
  {
    forall n :: n in before ==> n in after && after[n] == before[n]
  }

  lemma PreservesKeys(before: map<string, Bytes>, after: map<string, Bytes>)
    requires Preserves(before, after)
    ensures before.Keys <= after.Keys
  {
  }

  lemma DiffSplit<T>(a: set<T>, b: set<T>, c: set<T>)
    requires a <= b <= c
    ensures |c - a| == |c - b| + |b - a|
  {
    assert c - a == (c - b) + (b - a);
    assert (c - b) !! (b - a);
  }

  /** Exactly one loop body: at most one new file, under an absent candidate name. */
  lemma AttemptKeys(files: map<string, Bytes>, job: Job, step: Step)
    ensures var a := Attempt(files, job, step);
      && Preserves(files, a.files)
      && (a.files == files
          || (Candidate(job, step) !in files && a.files.Keys == files.Keys + {Candidate(job, step)} && a.sent))
      && SeedAllowed(job, SeedFor(job, step))
  {
  }

  /** A loop body adds to the count exactly the files it adds, at most one. */
  lemma AttemptCount(files: map<string, Bytes>, job: Job, step: Step)
    ensures var a := Attempt(files, job, step);
      && Count(a.files, job) == Count(files, job) + |a.files.Keys - files.Keys|
      && |a.files.Keys - files.Keys| <= 1
      && (a.files != files ==> a.files.Keys - files.Keys == {Candidate(job, step)})
  {
    var a := Attempt(files, job, step);
    var name := Candidate(job, step);
    AttemptKeys(files, job, step);
    if a.files == files {
      assert a.files.Keys - files.Keys == {};
    } else {
      BuildNameMatchesPattern(Artifact(job.base, job.params, SeedFor(job, step)));
      CountAddMatching(files.Keys, name, job.base, job.params);
      assert a.files.Keys - files.Keys == {name};
    }
  }

  /** The loop consumes a prefix of the steps and sends at most one request per step consumed. */
  lemma {:induction false} LoopConsumes(files: map<string, Bytes>, job: Job, steps: seq<Step>)
    ensures var r := LoopRun(files, job, steps);
      && |r.rest| <= |steps| && r.rest == steps[|steps| - |r.rest|..]
      && r.sent <= |steps| - |r.rest|
    decreases |steps|
  {
    var r := LoopRun(files, job, steps);
    if KeepGoing(files, job) && steps != [] {
      var a := Attempt(files, job, steps[0]);
      var r' := LoopRun(a.files, job, steps[1..]);
      assert r.rest == r'.rest && r.sent <= r'.sent + 1;
      LoopConsumes(a.files, job, steps[1..]);
      assert steps[1..][|steps| - 1 - |r'.rest|..] == steps[|steps| - |r.rest|..];
    } else {
      assert steps[|steps| - |r.rest|..] == steps;
    }
  }

  /** The loop stops for one of two reasons: the condition fails, or the steps run out. */
  lemma {:induction false} LoopExit(files: map<string, Bytes>, job: Job, steps: seq<Step>)
    ensures var r := LoopRun(files, job, steps);
      && (r.exit == TargetReached <==> !KeepGoing(r.files, job))
      && (r.exit == StepsExhausted <==> KeepGoing(r.files, job))
      && (r.exit == StepsExhausted ==> r.rest == [])
    decreases |steps|
  {
    if KeepGoing(files, job) && steps != [] {
      var a := Attempt(files, job, steps[0]);
      LoopExit(a.files, job, steps[1..]);
    }
  }

  /** The loop never overwrites, and every file it adds is a candidate name of the job. */
  lemma {:induction false} LoopWrites(files: map<string, Bytes>, job: Job, steps: seq<Step>)
    ensures var r := LoopRun(files, job, steps);
      && Preserves(files, r.files)
      && (forall n :: n in r.files && n !in files ==> IsCandidate(job, n))
    decreases |steps|
  {
    var r := LoopRun(files, job, steps);
    if KeepGoing(files, job) && steps != [] {
      var a := Attempt(files, job, steps[0]);
      AttemptKeys(files, job, steps[0]);
      LoopWrites(a.files, job, steps[1..]);
      forall n | n in r.files && n !in files ensures IsCandidate(job, n) {
        if n in a.files {
          assert n == Candidate(job, steps[0]);
          assert SeedAllowed(job, SeedFor(job, steps[0]));
        }
      }
    }
  }

  /** Every file the loop adds is counted, and each one took a request. */
  lemma {:induction false} LoopCounts(files: map<string, Bytes>, job: Job, steps: seq<Step>)
    ensures var r := LoopRun(files, job, steps);
      && Count(r.files, job) == Count(files, job) + |r.files.Keys - files.Keys|
      && |r.files.Keys - files.Keys| <= r.sent
    decreases |steps|
  {
    var r := LoopRun(files, job, steps);
    if KeepGoing(files, job) && steps != [] {
      var a := Attempt(files, job, steps[0]);
      var r' := LoopRun(a.files, job, steps[1..]);
      assert r.files == r'.files && r.sent == r'.sent + if a.sent then 1 else 0;
      AttemptKeys(files, job, steps[0]);
      AttemptCount(files, job, steps[0]);
      LoopWrites(a.files, job, steps[1..]);
      LoopCounts(a.files, job, steps[1..]);
      PreservesKeys(files, a.files);
      PreservesKeys(a.files, r'.files);
      DiffSplit(files.Keys, a.files.Keys, r'.files.Keys);
    } else {
      assert r.files.Keys - files.Keys == {};
    }
  }

  /** Standard mode stops at the target and never beyond it. */
  lemma {:induction false} LoopStopsAtTarget(files: map<string, Bytes>, job: Job, steps: seq<Step>)
    requires !job.upscale && Count(files, job) <= job.iterations
    ensures Count(LoopRun(files, job, steps).files, job) <= job.iterations
    decreases |steps|
  {
    if KeepGoing(files, job) && steps != [] {
      var a := Attempt(files, job, steps[0]);
      AttemptCount(files, job, steps[0]);
      LoopStopsAtTarget(a.files, job, steps[1..]);
    }
  }

  /** Upscale mode writes at most one file, and none when a match already exists. */
  lemma {:induction false} LoopUpscaleOnce(files: map<string, Bytes>, job: Job, steps: seq<Step>)
    requires job.upscale
    ensures var r := LoopRun(files, job, steps);
      && |r.files.Keys - files.Keys| <= 1
      && (Count(files, job) > 0 ==> r.files == files)
    decreases |steps|
  {
    var r := LoopRun(files, job, steps);
    if KeepGoing(files, job) && steps != [] {
      var a := Attempt(files, job, steps[0]);
      AttemptKeys(files, job, steps[0]);
      if a.files == files {
        LoopUpscaleOnce(a.files, job, steps[1..]);
      } else {
        AttemptCount(files, job, steps[0]);
        assert LoopRun(a.files, job, steps[1..]).files == a.files;
      }
    } else {
      assert r.files.Keys - files.Keys == {};
    }
  }

  /**
   * With a fixed seed whose name already exists while more artifacts are
   * wanted, every iteration skips: no request, no write, and the loop runs
   * until the environment stops supplying iterations.
   */
  lemma {:induction false} FixedSeedCollisionStalls(files: map<string, Bytes>, job: Job, steps: seq<Step>)
    requires job.seed.Some? && BuildName(Artifact(job.base, job.params, job.seed.value)) in files
    requires KeepGoing(files, job)
    ensures LoopRun(files, job, steps) == Run(files, [], 0, StepsExhausted)
    decreases |steps|
  {
    if steps != [] {
      FixedSeedCollisionStalls(files, job, steps[1..]);
    }
  }

  /** When at most one matching artifact is wanted, the candidate name is never taken. */
  predicate SingleTarget(job: Job)
  {
    job.upscale || job.iterations <= 1
  }

  lemma SingleTargetNoCollision(files: map<string, Bytes>, job: Job, step: Step)
    requires SingleTarget(job) && KeepGoing(files, job)
    ensures Candidate(job, step) !in files
  {
    var name := Candidate(job, step);
    BuildNameMatchesPattern(Artifact(job.base, job.params, SeedFor(job, step)));
    if name in files {
      CountPresent(files.Keys, name, job.base, job.params);
    }
  }

  /**
   * When at most one matching artifact is wanted, every iteration sends a
   * request and the first successful write ends the loop.
   */
  lemma {:induction false} SingleTargetFirstWriteEnds(files: map<string, Bytes>, job: Job, steps: seq<Step>, k: nat)
    requires SingleTarget(job) && KeepGoing(files, job)
    requires k < |steps| && steps[k].outcome.Written?
    requires forall j :: 0 <= j < k ==> !steps[j].outcome.Written?
    ensures var r := LoopRun(files, job, steps);
      && r.exit == TargetReached && r.rest == steps[k + 1..] && r.sent == k + 1
      && r.files == files[Candidate(job, steps[k]) := steps[k].outcome.content]
      && Candidate(job, steps[k]) !in files
    decreases k
  {
    SingleTargetNoCollision(files, job, steps[k]);
    var a := Attempt(files, job, steps[0]);
    SingleTargetNoCollision(files, job, steps[0]);
    if k == 0 {
      var name := Candidate(job, steps[0]);
      BuildNameMatchesPattern(Artifact(job.base, job.params, SeedFor(job, steps[0])));
      CountAddMatching(files.Keys, name, job.base, job.params);
      assert a.files.Keys == files.Keys + {name};
      assert !KeepGoing(a.files, job);
    } else {
      assert a.files == files;
      SingleTargetFirstWriteEnds(files, job, steps[1..], k - 1);
      assert steps[1..][k - 1..] == steps[k..];
    }
  }

  /** When at most one matching artifact is wanted, every iteration the loop runs sends a request. */
  lemma {:induction false} SingleTargetAlwaysSends(files: map<string, Bytes>, job: Job, steps: seq<Step>)
    requires SingleTarget(job)
    ensures var r := LoopRun(files, job, steps); r.sent == |steps| - |r.rest|
    decreases |steps|
  {
    if KeepGoing(files, job) && steps != [] {
      SingleTargetNoCollision(files, job, steps[0]);
      var a := Attempt(files, job, steps[0]);
      SingleTargetAlwaysSends(a.files, job, steps[1..]);
    }
  }

  /**
   * With a fixed seed, standard mode and two or more wanted artifacts, a loop
   * that starts without matches never reaches its target: the first write
   * takes the only name the seed allows, and every later iteration skips it.
   */
  lemma {:induction false} FixedSeedManyNeverReached(files: map<string, Bytes>, job: Job, steps: seq<Step>)
    requires job.seed.Some? && !job.upscale && job.iterations >= 2 && Count(files, job) == 0
    ensures LoopRun(files, job, steps).exit == StepsExhausted
    decreases |steps|
  {
    if steps != [] {
      var a := Attempt(files, job, steps[0]);
      AttemptKeys(files, job, steps[0]);
      AttemptCount(files, job, steps[0]);
      if a.files == files {
        FixedSeedManyNeverReached(a.files, job, steps[1..]);
      } else {
        assert Candidate(job, steps[0]) == BuildName(Artifact(job.base, job.params, job.seed.value));
        FixedSeedCollisionStalls(a.files, job, steps[1..]);
      }
    }
  }

  /** With enough matches on entry nothing is sent and nothing changes. */
  lemma ImageRunEarlyExit(files: map<string, Bytes>, data: Bytes, job: Job, steps: seq<Step>)
    requires Count(files, job) >= job.iterations
    ensures ImageRun(files, Some(Readable(data)), job, steps) == Run(files, steps, 0, AlreadyEnough)
  {
  }

  /**
   * What one `process_image` call writes: only new files, each under a
   * candidate name of the job; an early exit changes nothing and sends nothing.
   */
  lemma ImageRunWrites(files: map<string, Bytes>, image: Option<SourceFile>, job: Job, steps: seq<Step>)
    ensures var r := ImageRun(files, image, job, steps);
      && Preserves(files, r.files)
      && (forall n :: n in r.files && n !in files ==> IsCandidate(job, n))
      && (r.exit != TargetReached && r.exit != StepsExhausted ==> r.files == files && r.sent == 0)
  {
    if image.Some? && image.value.Readable? && Count(files, job) < job.iterations {
      LoopWrites(files, job, steps);
      LoopExit(files, job, steps);
    }
  }

  /**
   * What one `process_image` call counts: each new file took a request, each
   * request took an iteration, and the iterations are a prefix of the steps.
   */
  lemma ImageRunCounts(files: map<string, Bytes>, image: Option<SourceFile>, job: Job, steps: seq<Step>)
    ensures var r := ImageRun(files, image, job, steps);
      && |r.files.Keys - files.Keys| <= r.sent <= |steps| - |r.rest|
      && r.rest == steps[|steps| - |r.rest|..]
  {
    var r := ImageRun(files, image, job, steps);
    if image.Some? && image.value.Readable? && Count(files, job) < job.iterations {
      assert r == LoopRun(files, job, steps);
      LoopConsumes(files, job, steps);
      LoopCounts(files, job, steps);
    } else {
      assert r.files == files && r.rest == steps && r.sent == 0;
      assert steps[|steps| - |r.rest|..] == steps;
      assert r.files.Keys - files.Keys == {};
    }
  }

  /**
   * On reaching its target, one `process_image` call leaves exactly the
   * target count in standard mode and at least one match in upscale mode.
   */
  lemma ImageRunTarget(files: map<string, Bytes>, image: Option<SourceFile>, job: Job, steps: seq<Step>)
    ensures var r := ImageRun(files, image, job, steps);
      && (r.exit == TargetReached && !job.upscale ==> Count(r.files, job) == job.iterations)
      && (r.exit == TargetReached && job.upscale ==> Count(r.files, job) >= 1)
  {
    if image.Some? && image.value.Readable? && Count(files, job) < job.iterations {
      LoopExit(files, job, steps);
      if !job.upscale {
        LoopStopsAtTarget(files, job, steps);
      }
    }
  }
}
