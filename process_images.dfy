/**
 * `main` of process_images.py: the pipeline-file and image-directory checks
 * and the loop that starts one CellProfiler container per batch. The
 * arguments have already been parsed and made absolute; the image
 * directory's listing and the invoking user's uid and gid are inputs.
 */
module ProcessImages {
  import opened Wrappers
  import opened Strings
  import opened Decimal
  import opened Paths
  import opened BatchPlanner
  import opened DockerCommand

  /** The command-line settings of a run. */
  datatype Config = Config(
    pipelineFile: string,
    outputDir: string,
    imageDir: string,
    batchSize: nat,
    numChannels: nat,
    memory: string,
    version: string)

  /** Why a run stops before starting any container. */
  datatype ConfigError = InvalidPipelineFile | ImageDirNotFound(path: string)

  /** The pipeline file's extension, lower-cased, is ".cppipe". */
  predicate IsPipelineFile(p: string)
  {
    Lower(SplitExt(p).1) == ".cppipe"
  }

  /** The container launch for one batch of a run. */
  function WorkerOf(cfg: Config, b: Batch, uid: nat, gid: nat): WorkerSpec
  {
    WorkerSpec(b, cfg.pipelineFile, cfg.outputDir, cfg.imageDir, cfg.memory, cfg.version, uid, gid)
  }

  /** The containers started for `batches`, in order: one `run_docker_container` call per batch. */
  function Workers(cfg: Config, batches: seq<Batch>, uid: nat, gid: nat): (ws: seq<WorkerSpec>)
    ensures |ws| == |batches|
  {
    seq(|batches|, k requires 0 <= k < |batches| => WorkerOf(cfg, batches[k], uid, gid))
  }

  /**
   * The batches the loop visits from counter value i on: the batch at i is
   * `str(i // size + 1).zfill(3)`, from i to `min(i + size, total)`.
   */
  function BatchesFrom(total: nat, size: nat, i: nat): seq<Batch>
    requires size > 0
    decreases total - i
  {
    if i >= total then []
    else [LoopBatch(total, size, i)] + BatchesFrom(total, size, i + size)
  }

  /** The batch the loop builds at counter value i. */
  function LoopBatch(total: nat, size: nat, i: nat): Batch
    requires size > 0
  {
    Batch(ZFill(NatToDecimal(i / size + 1), 3), i, Min(i + size, total))
  }

  /** One step of the loop: the batch at counter value i, then the rest. */
  lemma LoopStep(total: nat, size: nat, i: nat, done: seq<Batch>)
    requires size > 0 && i < total && done + BatchesFrom(total, size, i) == BatchesFrom(total, size, 0)
    ensures (done + [LoopBatch(total, size, i)]) + BatchesFrom(total, size, i + size) == BatchesFrom(total, size, 0)
  {
    var b := LoopBatch(total, size, i);
    assert BatchesFrom(total, size, i) == [b] + BatchesFrom(total, size, i + size);
    assert (done + [b]) + BatchesFrom(total, size, i + size) == done + ([b] + BatchesFrom(total, size, i + size));
  }

  /** The batch the loop visits at counter value `i == n * size` is batch n of the plan. */
  lemma PlannedBatchAt(total: nat, size: nat, n: nat, i: nat)
    requires size > 0 && i == n * size && i < total
    ensures n < |Plan(total, size)|
    ensures Plan(total, size)[n] == LoopBatch(total, size, i)
  {
    DivModUnique(i, size, n, 0);
    if n >= NumBatches(total, size) {
      MulLe(NumBatches(total, size), n, size);
    }
  }

  /** From the start of batch n on, the loop visits exactly the plan's batches from n on. */
  lemma {:induction false} BatchesFromPlan(total: nat, size: nat, n: nat, i: nat)
    requires size > 0 && n <= NumBatches(total, size) && i == n * size
    ensures BatchesFrom(total, size, i) == Plan(total, size)[n..]
    decreases NumBatches(total, size) - n
  {
    if i >= total {
      PlanEndsAt(total, size, n, i);
    } else {
      PlannedBatchAt(total, size, n, i);
      MulSucc(n, size);
      BatchesFromPlan(total, size, n + 1, i + size);
      PlanStepJoin(total, size, n, i);
    }
  }

  /** The loop stops where the plan ends. */
  lemma PlanEndsAt(total: nat, size: nat, n: nat, i: nat)
    requires size > 0 && n <= NumBatches(total, size) && i == n * size && i >= total
    ensures Plan(total, size)[n..] == []
  {
    if n < NumBatches(total, size) {
      MulLe(n, NumBatches(total, size) - 1, size);
    }
  }

  /** The batch at i followed by the batches after it are the plan from batch n on. */
  lemma PlanStepJoin(total: nat, size: nat, n: nat, i: nat)
    requires size > 0 && i < total && n < |Plan(total, size)|
    requires Plan(total, size)[n] == LoopBatch(total, size, i)
    requires BatchesFrom(total, size, i + size) == Plan(total, size)[n + 1..]
    ensures BatchesFrom(total, size, i) == Plan(total, size)[n..]
  {
    var plan := Plan(total, size);
    assert BatchesFrom(total, size, i) == [plan[n]] + BatchesFrom(total, size, i + size);
    assert plan[n..] == [plan[n]] + plan[n + 1..];
  }

  /** Starting one more container appends its launch to those already started. */
  lemma WorkersAppend(cfg: Config, batches: seq<Batch>, b: Batch, uid: nat, gid: nat)
    ensures Workers(cfg, batches + [b], uid, gid) == Workers(cfg, batches, uid, gid) + [WorkerOf(cfg, b, uid, gid)]
  {
  }

  /** One turn of the batch loop keeps the loop's invariant. */
  lemma LaunchStep(cfg: Config, total: nat, i: nat, batches: seq<Batch>, started: seq<WorkerSpec>, uid: nat, gid: nat)
    requires cfg.batchSize > 0 && i < total
    requires batches + BatchesFrom(total, cfg.batchSize, i) == BatchesFrom(total, cfg.batchSize, 0)
    requires started == Workers(cfg, batches, uid, gid)
    ensures (batches + [LoopBatch(total, cfg.batchSize, i)]) + BatchesFrom(total, cfg.batchSize, i + cfg.batchSize)
      == BatchesFrom(total, cfg.batchSize, 0)
    ensures started + [WorkerOf(cfg, LoopBatch(total, cfg.batchSize, i), uid, gid)]
      == Workers(cfg, batches + [LoopBatch(total, cfg.batchSize, i)], uid, gid)
  {
    LoopStep(total, cfg.batchSize, i, batches);
    WorkersAppend(cfg, batches, LoopBatch(total, cfg.batchSize, i), uid, gid);
  }

  /** When the counter passes the total, the loop has visited the whole plan. */
  lemma LoopDone(total: nat, size: nat, i: nat, done: seq<Batch>)
    requires size > 0 && i >= total && done + BatchesFrom(total, size, i) == BatchesFrom(total, size, 0)
    ensures done == Plan(total, size)
  {
    assert done + BatchesFrom(total, size, i) == done;
    BatchesFromPlan(total, size, 0, 0);
  }

  /**
   * The batch loop of `main`: for each i in `range(0, totalImages,
   * batchSize)`, the batch's start, end and id, and the container started
   * for it. Returns the containers in the order they are started.
   */
  method LaunchBatches(cfg: Config, totalImages: nat, uid: nat, gid: nat) returns (started: seq<WorkerSpec>)
    requires cfg.batchSize > 0
    ensures started == Workers(cfg, Plan(totalImages, cfg.batchSize), uid, gid)
  {
    started := [];
    ghost var batches: seq<Batch> := [];
    var i := 0;
    while i < totalImages
      invariant batches + BatchesFrom(totalImages, cfg.batchSize, i) == BatchesFrom(totalImages, cfg.batchSize, 0)
      invariant started == Workers(cfg, batches, uid, gid)
      decreases totalImages - i
    {
      var batchStart := i;
      var batchEnd := Min(i + cfg.batchSize, totalImages);
      var batchId := ZFill(NatToDecimal(i / cfg.batchSize + 1), 3);
      var batch := Batch(batchId, batchStart, batchEnd);
      assert batch == LoopBatch(totalImages, cfg.batchSize, i);
      LaunchStep(cfg, totalImages, i, batches, started, uid, gid);
      started := started + [WorkerOf(cfg, batch, uid, gid)];
      batches := batches + [batch];
      i := i + cfg.batchSize;
    }
    LoopDone(totalImages, cfg.batchSize, i, batches);
  }

  /**
   * `main` after argument parsing: checks the pipeline file's extension,
   * then that the image directory exists, then starts one container per
   * batch, in order.
   */
  method StartBatches(cfg: Config, imageDirExists: bool, imageList: seq<string>, uid: nat, gid: nat)
    returns (r: Result<seq<WorkerSpec>, ConfigError>)
    requires cfg.batchSize > 0 && cfg.numChannels > 0
    ensures !IsPipelineFile(cfg.pipelineFile) ==> r == Failure(InvalidPipelineFile)
    ensures IsPipelineFile(cfg.pipelineFile) && !imageDirExists ==> r == Failure(ImageDirNotFound(cfg.imageDir))
    ensures IsPipelineFile(cfg.pipelineFile) && imageDirExists
      ==> r == Success(Workers(cfg, Plan(TotalImages(|imageList|, cfg.numChannels), cfg.batchSize), uid, gid))
  {
    var extension := SplitExt(cfg.pipelineFile).1;
    if Lower(extension) != ".cppipe" {
      return Failure(InvalidPipelineFile);
    }
    if !imageDirExists {
      return Failure(ImageDirNotFound(cfg.imageDir));
    }
    var totalImages := |imageList| / cfg.numChannels + 1;
    var started := LaunchBatches(cfg, totalImages, uid, gid);
    return Success(started);
  }

  // ---- what a run promises ----

  /** A string that lower-cases to ".cppipe" is a dot followed by six letters. */
  lemma CppipeShape(t: string)
    requires Lower(t) == ".cppipe"
    ensures |t| == 7 && t[0] == '.'
    ensures forall i :: 1 <= i < |t| ==> t[i] != '.' && t[i] != '/'
  {
    forall i | 0 <= i < 7 ensures (t[i] == '.' <==> i == 0) && t[i] != '/'
    {
      assert LowerChar(t[i]) == ".cppipe"[i];
    }
  }

  /**
   * The pipeline check accepts exactly the paths whose last seven characters
   * are ".cppipe" in any letter case, with something other than dots between
   * the last '/' and that suffix (so "/data/.cppipe" is refused, as splitext
   * sees no extension there).
   */
  lemma PipelineFileSuffix(p: string)
    ensures IsPipelineFile(p) <==>
      |p| >= 7 && Lower(p[|p| - 7..]) == ".cppipe" && RFind(p, '/') < |p| - 7 && HasStem(p, RFind(p, '/'), |p| - 7)
  {
    if IsPipelineFile(p) {
      PipelineFileHasSuffix(p);
    }
    if |p| >= 7 && Lower(p[|p| - 7..]) == ".cppipe" && RFind(p, '/') < |p| - 7 && HasStem(p, RFind(p, '/'), |p| - 7) {
      SuffixIsPipelineFile(p);
    }
  }

  lemma PipelineFileHasSuffix(p: string)
    requires IsPipelineFile(p)
    ensures |p| >= 7 && Lower(p[|p| - 7..]) == ".cppipe" && RFind(p, '/') < |p| - 7 && HasStem(p, RFind(p, '/'), |p| - 7)
  {
    var ext := SplitExt(p).1;
    assert |ext| == |Lower(ext)| == 7;
    ExtensionIsTail(p);
    assert ext == p[|p| - 7..];
    CppipeSuffixShape(p);
    SplitExtOfSuffix(p, 7);
  }

  lemma SuffixIsPipelineFile(p: string)
    requires |p| >= 7 && Lower(p[|p| - 7..]) == ".cppipe" && HasStem(p, RFind(p, '/'), |p| - 7)
    ensures IsPipelineFile(p)
  {
    CppipeIsExtension(p);
    PipelineFileOfExt(p, p[|p| - 7..]);
  }

  lemma CppipeIsExtension(p: string)
    requires |p| >= 7 && Lower(p[|p| - 7..]) == ".cppipe" && HasStem(p, RFind(p, '/'), |p| - 7)
    ensures SplitExt(p).1 == p[|p| - 7..]
  {
    CppipeSuffixShape(p);
    SplitExtIsSuffix(p, 7);
  }

  lemma PipelineFileOfExt(p: string, ext: string)
    requires SplitExt(p).1 == ext && Lower(ext) == ".cppipe"
    ensures IsPipelineFile(p)
  {
  }

  /** A path ending in ".cppipe" in any case has a dot seven from the end and no dot or '/' after it. */
  lemma CppipeSuffixShape(p: string)
    requires |p| >= 7 && Lower(p[|p| - 7..]) == ".cppipe"
    ensures p[|p| - 7] == '.'
    ensures forall i :: |p| - 7 < i < |p| ==> p[i] != '.' && p[i] != '/'
  {
    var n := |p| - 7;
    var tail := p[n..];
    CppipeShape(tail);
    assert p[n] == tail[0];
    forall i | n < i < |p| ensures p[i] != '.' && p[i] != '/'
    {
      assert p[i] == tail[i - n];
    }
  }

  /** The check ignores letter case: a path passes exactly when its lower-cased form does. */
  lemma PipelineFileCaseInsensitive(p: string)
    ensures IsPipelineFile(p) <==> IsPipelineFile(Lower(p))
  {
    SplitExtLower(p);
    LowerIdempotent(SplitExt(p).1);
  }

  /** Launch k asks CellProfiler for image sets `start .. end - 1` of batch k of the plan. */
  lemma LaunchRanges(cfg: Config, total: nat, uid: nat, gid: nat)
    requires cfg.batchSize > 0
    ensures var ws := Workers(cfg, Plan(total, cfg.batchSize), uid, gid);
      forall k :: 0 <= k < |ws| ==>
        RequestedRange(LaunchArgs(ws[k])) == Some((ws[k].batch.start as int, ws[k].batch.end - 1))
  {
    var ws := Workers(cfg, Plan(total, cfg.batchSize), uid, gid);
    forall k | 0 <= k < |ws|
      ensures RequestedRange(LaunchArgs(ws[k])) == Some((ws[k].batch.start as int, ws[k].batch.end - 1))
    {
      LaunchRange(ws[k]);
    }
  }

  /**
   * The requested ranges tile the image sets: the first launch starts at 0,
   * each range is non-empty, each launch's first set follows the previous
   * launch's last, and the last launch ends at set `total - 1`.
   */
  lemma LaunchesTile(cfg: Config, total: nat, uid: nat, gid: nat)
    requires cfg.batchSize > 0 && total > 0
    ensures var ws := Workers(cfg, Plan(total, cfg.batchSize), uid, gid);
      && |ws| > 0
      && ws[0].batch.start == 0
      && ws[|ws| - 1].batch.end - 1 == total - 1
      && (forall k :: 0 <= k < |ws| ==> ws[k].batch.start <= ws[k].batch.end - 1)
      && (forall k :: 0 <= k < |ws| - 1 ==> ws[k].batch.end - 1 + 1 == ws[k + 1].batch.start)
  {
    PlanPartitions(total, cfg.batchSize);
  }

  /** Distinct batch ids give distinct output directories and container names. */
  lemma DistinctIdsDistinctOutputs(dir: string, id1: string, id2: string)
    requires |id1| > 0 && |id2| > 0 && AllDigits(id1) && AllDigits(id2) && id1 != id2
    ensures Join(dir, id1) != Join(dir, id2)
    ensures ContainerName(id1) != ContainerName(id2)
  {
    assert IsDigit(id1[0]) && IsDigit(id2[0]);
    if Join(dir, id1) == Join(dir, id2) {
      JoinInjective(dir, id1, id2);
    }
    assert ContainerName(id1)[13..] == id1;
    assert ContainerName(id2)[13..] == id2;
  }

  /**
   * Different launches of one run get different output directories and
   * different container names, since their ids differ and, being digits,
   * never start with '/'.
   */
  lemma LaunchesDistinct(cfg: Config, total: nat, uid: nat, gid: nat)
    requires cfg.batchSize > 0
    ensures var ws := Workers(cfg, Plan(total, cfg.batchSize), uid, gid);
      forall k1, k2 :: 0 <= k1 < |ws| && 0 <= k2 < |ws| && k1 != k2 ==>
        BatchOutputDir(ws[k1]) != BatchOutputDir(ws[k2]) && ContainerName(ws[k1].batch.id) != ContainerName(ws[k2].batch.id)
  {
    var bs := Plan(total, cfg.batchSize);
    var ws := Workers(cfg, bs, uid, gid);
    forall k1, k2 | 0 <= k1 < |ws| && 0 <= k2 < |ws| && k1 != k2
      ensures BatchOutputDir(ws[k1]) != BatchOutputDir(ws[k2])
      ensures ContainerName(ws[k1].batch.id) != ContainerName(ws[k2].batch.id)
    {
      var id1, id2 := BatchId(k1), BatchId(k2);
      assert ws[k1].batch.id == id1 && ws[k2].batch.id == id2;
      assert DigitsValue(id1) != DigitsValue(id2);
      DistinctIdsDistinctOutputs(cfg.outputDir, id1, id2);
    }
  }

  /** 36 files in 4 channels give a count of 10 (9 complete groups plus one); in batches of 4 the launches ask for 0-3, 4-7 and 8-9. */
  lemma LaunchExample(cfg: Config, uid: nat, gid: nat)
    requires cfg.batchSize == 4 && cfg.numChannels == 4
    ensures var ws := Workers(cfg, Plan(TotalImages(36, cfg.numChannels), cfg.batchSize), uid, gid);
      && |ws| == 3
      && RequestedRange(LaunchArgs(ws[0])) == Some((0, 3))
      && RequestedRange(LaunchArgs(ws[1])) == Some((4, 7))
      && RequestedRange(LaunchArgs(ws[2])) == Some((8, 9))
      && ws[0].batch.id == "001" && ws[1].batch.id == "002" && ws[2].batch.id == "003"
  {
    assert TotalImages(36, 4) == 10;
    PlanExample();
    LaunchRanges(cfg, 10, uid, gid);
  }
}
