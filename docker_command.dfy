/**
 * The `docker run` argument list that `run_docker_container` builds for one
 * batch, and a reader of that list that consumes options the way docker
 * and CellProfiler do (each option either takes the next argument as its
 * value or takes none), so that what each program sees can be stated.
 */
module DockerCommand {
  import opened Wrappers
  import opened Strings
  import opened Decimal
  import opened Paths
  import opened BatchPlanner

  /** Everything one container launch depends on; uid and gid are those of the invoking user. */
  datatype WorkerSpec = WorkerSpec(
    batch: Batch,
    pipelineFile: string,
    outputDir: string,
    imageDir: string,
    memory: string,
    version: string,
    uid: nat,
    gid: nat)

  /** `os.path.join(output_dir, batch_id)`: where this batch's container writes. */
  function BatchOutputDir(w: WorkerSpec): string
  {
    Join(w.outputDir, w.batch.id)
  }

  function ContainerName(id: string): string
  {
    "cellprofiler_" + id
  }

  function ImageName(version: string): string
  {
    "cellprofiler/cellprofiler:" + version
  }

  /** The `docker run` options of the `cmd` list of `run_docker_container`. */
  function RunArgs(w: WorkerSpec): seq<string>
  {
    [ "--name", ContainerName(w.batch.id),
      "--memory", w.memory,
      "--cpus", "1",
      "--rm",
      "-dit",
      "-v", w.pipelineFile + ":/pipeline.cppipe:ro",
      "-v", BatchOutputDir(w) + ":/output",
      "-v", w.imageDir + ":/input:ro",
      "-u", NatToDecimal(w.uid) + ":" + NatToDecimal(w.gid) ]
  }

  /** The options passed to `cellprofiler` inside the container. */
  function ProgramArgs(w: WorkerSpec): seq<string>
  {
    [ "-c", "-r", "-p", "/pipeline.cppipe",
      "-f", IntToDecimal(w.batch.start),
      "-l", IntToDecimal(w.batch.end - 1),
      "-o", "/output",
      "-i", "/input",
      "--conserve-memory", "True" ]
  }

  /** The whole `cmd` list, element for element. */
  function LaunchArgs(w: WorkerSpec): seq<string>
  {
    ["docker", "run"] + RunArgs(w) + [ImageName(w.version), "cellprofiler"] + ProgramArgs(w)
  }

  // ---- how the two programs read that list ----

  /** One option as a program sees it: a flag, with the value it consumed if it takes one. */
  datatype Opt = Opt(flag: string, value: Option<string>)

  /** A `docker run` call: its options, the image, the program started in it and that program's options. */
  datatype Invocation = Invocation(runOptions: seq<Opt>, image: string, program: string, programOptions: seq<Opt>)

  predicate IsFlag(arg: string)
  {
    |arg| > 0 && arg[0] == '-'
  }

  /** The `docker run` options used here that take a value; `--rm` and `-dit` take none. */
  const DockerValued: set<string> := {"--name", "--memory", "--cpus", "-v", "-u"}

  /** The CellProfiler options used here that take a value; `-c` and `-r` take none. */
  const CellProfilerValued: set<string> := {"-p", "-f", "-l", "-o", "-i", "--conserve-memory"}

  /**
   * Reads options from the front of `args` until the first argument that is
   * not a flag; returns them with the arguments left over, or None when a
   * flag that takes a value is last.
   */
  function ParseOptions(args: seq<string>, valued: set<string>): Option<(seq<Opt>, seq<string>)>
    decreases |args|
  {
    if args == [] || !IsFlag(args[0]) then Some(([], args))
    else if args[0] in valued then
      if |args| < 2 then None
      else match ParseOptions(args[2..], valued)
        case None => None
        case Some(r) => Some(([Opt(args[0], Some(args[1]))] + r.0, r.1))
    else
      match ParseOptions(args[1..], valued)
      case None => None
      case Some(r) => Some(([Opt(args[0], None)] + r.0, r.1))
  }

  /** Reads `docker run <options> <image> <program> <program options>`. */
  function ParseRun(argv: seq<string>): Option<Invocation>
  {
    if |argv| < 2 || argv[0] != "docker" || argv[1] != "run" then None
    else match ParseOptions(argv[2..], DockerValued)
      case None => None
      case Some(r) =>
        var rest := r.1;
        if |rest| < 2 then None
        else match ParseOptions(rest[2..], CellProfilerValued)
          case None => None
          case Some(p) => if p.1 == [] then Some(Invocation(r.0, rest[0], rest[1], p.0)) else None
  }

  /** `flag` was given, with or without a value. */
  predicate Given(opts: seq<Opt>, flag: string)
  {
    exists i :: 0 <= i < |opts| && opts[i].flag == flag
  }

  /** The options docker sees in a launch, in order. */
  function RunOptionsOf(w: WorkerSpec): seq<Opt>
  {
    [ Opt("--name", Some(ContainerName(w.batch.id))),
      Opt("--memory", Some(w.memory)),
      Opt("--cpus", Some("1")),
      Opt("--rm", None),
      Opt("-dit", None),
      Opt("-v", Some(w.pipelineFile + ":/pipeline.cppipe:ro")),
      Opt("-v", Some(BatchOutputDir(w) + ":/output")),
      Opt("-v", Some(w.imageDir + ":/input:ro")),
      Opt("-u", Some(NatToDecimal(w.uid) + ":" + NatToDecimal(w.gid))) ]
  }

  /** The options CellProfiler sees in a launch, in order. */
  function ProgramOptionsOf(w: WorkerSpec): seq<Opt>
  {
    [ Opt("-c", None),
      Opt("-r", None),
      Opt("-p", Some("/pipeline.cppipe")),
      Opt("-f", Some(IntToDecimal(w.batch.start))),
      Opt("-l", Some(IntToDecimal(w.batch.end - 1))),
      Opt("-o", Some("/output")),
      Opt("-i", Some("/input")),
      Opt("--conserve-memory", Some("True")) ]
  }

  lemma {:induction false} ParseValued(flag: string, value: string, rest: seq<string>, valued: set<string>, o: seq<Opt>, r: seq<string>)
    requires IsFlag(flag) && flag in valued
    requires ParseOptions(rest, valued) == Some((o, r))
    ensures ParseOptions([flag, value] + rest, valued) == Some(([Opt(flag, Some(value))] + o, r))
  {
    assert ([flag, value] + rest)[2..] == rest;
  }

  lemma {:induction false} ParseBare(flag: string, rest: seq<string>, valued: set<string>, o: seq<Opt>, r: seq<string>)
    requires IsFlag(flag) && flag !in valued
    requires ParseOptions(rest, valued) == Some((o, r))
    ensures ParseOptions([flag] + rest, valued) == Some(([Opt(flag, None)] + o, r))
  {
    assert ([flag] + rest)[1..] == rest;
  }

  /** The range, output, input and memory options: the last ten arguments of CellProfiler's options. */
  lemma {:induction false} ProgramTailParse(first: string, last: string)
    ensures ParseOptions(["-f", first, "-l", last, "-o", "/output", "-i", "/input", "--conserve-memory", "True"], CellProfilerValued)
         == Some(([Opt("-f", Some(first)), Opt("-l", Some(last)), Opt("-o", Some("/output")), Opt("-i", Some("/input")),
                   Opt("--conserve-memory", Some("True"))], []))
  {
    var v := CellProfilerValued;
    var s5: seq<string> := [];
    var o5: seq<Opt> := [];
    var s4 := ["--conserve-memory", "True"] + s5;
    ParseValued("--conserve-memory", "True", s5, v, o5, []);
    var o4 := [Opt("--conserve-memory", Some("True"))] + o5;
    var s3 := ["-i", "/input"] + s4;
    ParseValued("-i", "/input", s4, v, o4, []);
    var o3 := [Opt("-i", Some("/input"))] + o4;
    var s2 := ["-o", "/output"] + s3;
    ParseValued("-o", "/output", s3, v, o3, []);
    var o2 := [Opt("-o", Some("/output"))] + o3;
    var s1 := ["-l", last] + s2;
    ParseValued("-l", last, s2, v, o2, []);
    var o1 := [Opt("-l", Some(last))] + o2;
    ParseValued("-f", first, s1, v, o1, []);
    assert [Opt("-f", Some(first))] + o1
        == [Opt("-f", Some(first)), Opt("-l", Some(last)), Opt("-o", Some("/output")), Opt("-i", Some("/input")),
            Opt("--conserve-memory", Some("True"))];
    assert ["-f", first] + s1 == ["-f", first, "-l", last, "-o", "/output", "-i", "/input", "--conserve-memory", "True"];
  }

  /** CellProfiler's options, with the range values left open. */
  lemma {:induction false} ProgramListParse(first: string, last: string)
    ensures ParseOptions(["-c", "-r", "-p", "/pipeline.cppipe", "-f", first, "-l", last, "-o", "/output", "-i", "/input",
                          "--conserve-memory", "True"], CellProfilerValued)
         == Some(([Opt("-c", None), Opt("-r", None), Opt("-p", Some("/pipeline.cppipe")), Opt("-f", Some(first)),
                   Opt("-l", Some(last)), Opt("-o", Some("/output")), Opt("-i", Some("/input")),
                   Opt("--conserve-memory", Some("True"))], []))
  {
    var v := CellProfilerValued;
    var s3 := ["-f", first, "-l", last, "-o", "/output", "-i", "/input", "--conserve-memory", "True"];
    var o3 := [Opt("-f", Some(first)), Opt("-l", Some(last)), Opt("-o", Some("/output")), Opt("-i", Some("/input")),
               Opt("--conserve-memory", Some("True"))];
    ProgramTailParse(first, last);
    var s2 := ["-p", "/pipeline.cppipe"] + s3;
    ParseValued("-p", "/pipeline.cppipe", s3, v, o3, []);
    var o2 := [Opt("-p", Some("/pipeline.cppipe"))] + o3;
    var s1 := ["-r"] + s2;
    ParseBare("-r", s2, v, o2, []);
    var o1 := [Opt("-r", None)] + o2;
    ParseBare("-c", s1, v, o1, []);
    ProgramListShape(first, last);
  }

  lemma ProgramListShape(first: string, last: string)
    ensures var o3 := [Opt("-f", Some(first)), Opt("-l", Some(last)), Opt("-o", Some("/output")), Opt("-i", Some("/input")),
                       Opt("--conserve-memory", Some("True"))];
      [Opt("-c", None)] + ([Opt("-r", None)] + ([Opt("-p", Some("/pipeline.cppipe"))] + o3))
        == [Opt("-c", None), Opt("-r", None), Opt("-p", Some("/pipeline.cppipe")), Opt("-f", Some(first)),
            Opt("-l", Some(last)), Opt("-o", Some("/output")), Opt("-i", Some("/input")),
            Opt("--conserve-memory", Some("True"))]
    ensures var s3 := ["-f", first, "-l", last, "-o", "/output", "-i", "/input", "--conserve-memory", "True"];
      ["-c"] + (["-r"] + (["-p", "/pipeline.cppipe"] + s3))
        == ["-c", "-r", "-p", "/pipeline.cppipe", "-f", first, "-l", last, "-o", "/output", "-i", "/input",
            "--conserve-memory", "True"]
  {
  }

  /** CellProfiler's part of the list reads back as exactly its options, with nothing left over. */
  lemma ProgramArgsParse(w: WorkerSpec)
    ensures ParseOptions(ProgramArgs(w), CellProfilerValued) == Some((ProgramOptionsOf(w), []))
  {
    var first, last := IntToDecimal(w.batch.start), IntToDecimal(w.batch.end - 1);
    assert ProgramArgs(w) == ["-c", "-r", "-p", "/pipeline.cppipe", "-f", first, "-l", last, "-o", "/output", "-i", "/input",
                              "--conserve-memory", "True"];
    ProgramListParse(first, last);
  }

  /** The three mounts and the user: the last eight arguments of the docker options. */
  lemma {:induction false} MountArgsParse(pipeline: string, output: string, images: string, user: string, t: seq<string>)
    requires t != [] && !IsFlag(t[0])
    ensures ParseOptions(["-v", pipeline, "-v", output, "-v", images, "-u", user] + t, DockerValued)
         == Some(([Opt("-v", Some(pipeline)), Opt("-v", Some(output)), Opt("-v", Some(images)), Opt("-u", Some(user))], t))
  {
    var v := DockerValued;
    var o4: seq<Opt> := [];
    assert ParseOptions(t, v) == Some((o4, t));
    var s3 := ["-u", user] + t;
    ParseValued("-u", user, t, v, o4, t);
    var o3 := [Opt("-u", Some(user))] + o4;
    var s2 := ["-v", images] + s3;
    ParseValued("-v", images, s3, v, o3, t);
    var o2 := [Opt("-v", Some(images))] + o3;
    var s1 := ["-v", output] + s2;
    ParseValued("-v", output, s2, v, o2, t);
    var o1 := [Opt("-v", Some(output))] + o2;
    ParseValued("-v", pipeline, s1, v, o1, t);
    MountArgsShape(pipeline, output, images, user, t);
  }

  lemma MountArgsShape(pipeline: string, output: string, images: string, user: string, t: seq<string>)
    ensures [Opt("-v", Some(pipeline))] + ([Opt("-v", Some(output))] + ([Opt("-v", Some(images))] + ([Opt("-u", Some(user))] + [])))
         == [Opt("-v", Some(pipeline)), Opt("-v", Some(output)), Opt("-v", Some(images)), Opt("-u", Some(user))]
    ensures ["-v", pipeline] + (["-v", output] + (["-v", images] + (["-u", user] + t)))
         == ["-v", pipeline, "-v", output, "-v", images, "-u", user] + t
  {
  }

  /** The name, the limits and the two bare flags: the first eight arguments of the docker options. */
  lemma {:induction false} HeadArgsParse(name: string, memory: string, s5: seq<string>, o5: seq<Opt>, t: seq<string>)
    requires ParseOptions(s5, DockerValued) == Some((o5, t))
    ensures ParseOptions(["--name", name, "--memory", memory, "--cpus", "1", "--rm", "-dit"] + s5, DockerValued)
         == Some(([Opt("--name", Some(name)), Opt("--memory", Some(memory)), Opt("--cpus", Some("1")),
                   Opt("--rm", None), Opt("-dit", None)] + o5, t))
  {
    var v := DockerValued;
    var s4 := ["-dit"] + s5;
    ParseBare("-dit", s5, v, o5, t);
    var o4 := [Opt("-dit", None)] + o5;
    var s3 := ["--rm"] + s4;
    ParseBare("--rm", s4, v, o4, t);
    var o3 := [Opt("--rm", None)] + o4;
    var s2 := ["--cpus", "1"] + s3;
    ParseValued("--cpus", "1", s3, v, o3, t);
    var o2 := [Opt("--cpus", Some("1"))] + o3;
    var s1 := ["--memory", memory] + s2;
    ParseValued("--memory", memory, s2, v, o2, t);
    var o1 := [Opt("--memory", Some(memory))] + o2;
    ParseValued("--name", name, s1, v, o1, t);
    HeadArgsShape(name, memory, s5, o5);
  }

  lemma HeadArgsShape(name: string, memory: string, s5: seq<string>, o5: seq<Opt>)
    ensures [Opt("--name", Some(name))] + ([Opt("--memory", Some(memory))] + ([Opt("--cpus", Some("1"))]
              + ([Opt("--rm", None)] + ([Opt("-dit", None)] + o5))))
         == [Opt("--name", Some(name)), Opt("--memory", Some(memory)), Opt("--cpus", Some("1")),
             Opt("--rm", None), Opt("-dit", None)] + o5
    ensures ["--name", name] + (["--memory", memory] + (["--cpus", "1"] + (["--rm"] + (["-dit"] + s5))))
         == ["--name", name, "--memory", memory, "--cpus", "1", "--rm", "-dit"] + s5
  {
  }

  /** The docker options, with their values left open. */
  lemma {:induction false} RunListParse(name: string, memory: string, pipeline: string, output: string, images: string,
                                        user: string, t: seq<string>)
    requires t != [] && !IsFlag(t[0])
    ensures ParseOptions(["--name", name, "--memory", memory, "--cpus", "1", "--rm", "-dit"]
                         + (["-v", pipeline, "-v", output, "-v", images, "-u", user] + t), DockerValued)
         == Some(([Opt("--name", Some(name)), Opt("--memory", Some(memory)), Opt("--cpus", Some("1")),
                   Opt("--rm", None), Opt("-dit", None)]
                  + [Opt("-v", Some(pipeline)), Opt("-v", Some(output)), Opt("-v", Some(images)), Opt("-u", Some(user))], t))
  {
    MountArgsParse(pipeline, output, images, user, t);
    HeadArgsParse(name, memory, ["-v", pipeline, "-v", output, "-v", images, "-u", user] + t,
      [Opt("-v", Some(pipeline)), Opt("-v", Some(output)), Opt("-v", Some(images)), Opt("-u", Some(user))], t);
  }

  /** The docker part of the list: everything between `run` and the image. */
  lemma RunArgsParse(w: WorkerSpec, t: seq<string>)
    requires t != [] && !IsFlag(t[0])
    ensures ParseOptions(RunArgs(w) + t, DockerValued) == Some((RunOptionsOf(w), t))
  {
    var name := ContainerName(w.batch.id);
    var pipeline := w.pipelineFile + ":/pipeline.cppipe:ro";
    var output := BatchOutputDir(w) + ":/output";
    var images := w.imageDir + ":/input:ro";
    var user := NatToDecimal(w.uid) + ":" + NatToDecimal(w.gid);
    RunListShape(name, w.memory, pipeline, output, images, user, t);
    assert RunArgs(w) == ["--name", name, "--memory", w.memory, "--cpus", "1", "--rm", "-dit",
                          "-v", pipeline, "-v", output, "-v", images, "-u", user];
    RunListParse(name, w.memory, pipeline, output, images, user, t);
  }

  lemma RunListShape(name: string, memory: string, pipeline: string, output: string, images: string, user: string, t: seq<string>)
    ensures ["--name", name, "--memory", memory, "--cpus", "1", "--rm", "-dit",
             "-v", pipeline, "-v", output, "-v", images, "-u", user] + t
         == ["--name", name, "--memory", memory, "--cpus", "1", "--rm", "-dit"]
            + (["-v", pipeline, "-v", output, "-v", images, "-u", user] + t)
    ensures [Opt("--name", Some(name)), Opt("--memory", Some(memory)), Opt("--cpus", Some("1")),
             Opt("--rm", None), Opt("-dit", None),
             Opt("-v", Some(pipeline)), Opt("-v", Some(output)), Opt("-v", Some(images)), Opt("-u", Some(user))]
         == [Opt("--name", Some(name)), Opt("--memory", Some(memory)), Opt("--cpus", Some("1")),
             Opt("--rm", None), Opt("-dit", None)]
            + [Opt("-v", Some(pipeline)), Opt("-v", Some(output)), Opt("-v", Some(images)), Opt("-u", Some(user))]
  {
  }

  /**
   * Read by option arity, the argument list splits into exactly these docker
   * options, the CellProfiler image, the `cellprofiler` program and these
   * program options: no value is mistaken for a flag, nothing is left over.
   */
  lemma {:induction false} LaunchArgsParse(w: WorkerSpec)
    ensures ParseRun(LaunchArgs(w)) == Some(Invocation(RunOptionsOf(w), ImageName(w.version), "cellprofiler", ProgramOptionsOf(w)))
  {
    var a := LaunchArgs(w);
    var t := [ImageName(w.version), "cellprofiler"] + ProgramArgs(w);
    assert a == ["docker", "run"] + (RunArgs(w) + t);
    assert a[2..] == RunArgs(w) + t;
    RunArgsParse(w, t);
    ProgramArgsParse(w);
    assert t[2..] == ProgramArgs(w);
  }

  /** The values given to `flag`, as a set. */
  function Values(opts: seq<Opt>, flag: string): set<string>
  {
    set i | 0 <= i < |opts| && opts[i].flag == flag && opts[i].value.Some? :: opts[i].value.value
  }

  /** The `-u` value docker reads as `uid:gid`: the text before the first ':' and the text after it. */
  function ParseUser(s: string): Option<(int, int)>
  {
    var i := Find(s, ':');
    if i < 0 then None
    else match (ParseInt(s[..i]), ParseInt(s[i + 1..]))
      case (Some(u), Some(g)) => Some((u, g))
      case _ => None
  }

  lemma UserRoundTrip(uid: nat, gid: nat)
    ensures ParseUser(NatToDecimal(uid) + ":" + NatToDecimal(gid)) == Some((uid, gid))
  {
    var u, g := NatToDecimal(uid), NatToDecimal(gid);
    var s := u + ":" + g;
    assert forall j :: 0 <= j < |u| ==> s[j] == u[j] && IsDigit(s[j]);
    assert s[|u|] == ':';
    assert Find(s, ':') == |u|;
    assert s[..|u|] == u && s[|u| + 1..] == g;
    ParseIntOfDecimal(uid);
    ParseIntOfDecimal(gid);
  }

  /** The value of the last occurrence of `flag`, the one an option parser keeps. */
  function LastValue(opts: seq<Opt>, flag: string): (v: Option<string>)
    ensures v.Some? ==> v.value in Values(opts, flag)
    ensures v.None? ==> Values(opts, flag) == {}
    decreases |opts|
  {
    if opts == [] then None
    else
      var last := opts[|opts| - 1];
      if last.flag == flag && last.value.Some? then Some(last.value.value)
      else
        var v := LastValue(opts[..|opts| - 1], flag);
        assert Values(opts, flag) == Values(opts[..|opts| - 1], flag);
        v
  }

  /** No option after position i gives `flag` a value. */
  predicate NoValueAfter(opts: seq<Opt>, flag: string, i: nat)
  {
    forall j :: i < j < |opts| ==> opts[j].flag != flag || opts[j].value.None?
  }

  /** The value kept is that of the occurrence of `flag` after which no other value is given. */
  lemma {:induction false} LastValueIsLast(opts: seq<Opt>, flag: string, i: nat)
    requires i < |opts| && opts[i].flag == flag && opts[i].value.Some? && NoValueAfter(opts, flag, i)
    ensures LastValue(opts, flag) == opts[i].value
    decreases |opts|
  {
    if i < |opts| - 1 {
      var init := opts[..|opts| - 1];
      assert !(opts[|opts| - 1].flag == flag && opts[|opts| - 1].value.Some?);
      assert init[i] == opts[i];
      assert NoValueAfter(init, flag, i) by {
        forall j | i < j < |init| ensures init[j].flag != flag || init[j].value.None? {
          assert init[j] == opts[j];
        }
      }
      LastValueIsLast(init, flag, i);
    }
  }

  /** The images (first and last index, both inclusive) CellProfiler is asked to process by an argument list. */
  function RequestedRange(argv: seq<string>): Option<(int, int)>
  {
    match ParseRun(argv)
    case None => None
    case Some(inv) =>
      match (LastValue(inv.programOptions, "-f"), LastValue(inv.programOptions, "-l"))
      case (Some(f), Some(l)) =>
        (match (ParseInt(f), ParseInt(l))
         case (Some(first), Some(last)) => Some((first, last))
         case _ => None)
      case _ => None
  }

  /** CellProfiler's range options in a launch, as an option parser keeps them. */
  lemma ProgramLastValues(w: WorkerSpec)
    ensures LastValue(ProgramOptionsOf(w), "-f") == Some(IntToDecimal(w.batch.start))
    ensures LastValue(ProgramOptionsOf(w), "-l") == Some(IntToDecimal(w.batch.end - 1))
  {
    var prog := ProgramOptionsOf(w);
    assert prog[..7][..6] == prog[..6] && prog[..6][..5] == prog[..5] && prog[..5][..4] == prog[..4];
    assert LastValue(prog[..5], "-l") == Some(IntToDecimal(w.batch.end - 1));
    assert LastValue(prog[..4], "-f") == Some(IntToDecimal(w.batch.start));
    assert LastValue(prog[..5], "-f") == LastValue(prog[..4], "-f");
    assert LastValue(prog, "-f") == LastValue(prog[..7], "-f") == LastValue(prog[..6], "-f") == LastValue(prog[..5], "-f");
    assert LastValue(prog, "-l") == LastValue(prog[..7], "-l") == LastValue(prog[..6], "-l") == LastValue(prog[..5], "-l");
  }

  /** The range an argument list requests depends only on how it parses. */
  lemma RequestedRangeOf(argv: seq<string>, inv: Invocation, first: string, last: string)
    requires ParseRun(argv) == Some(inv)
    requires LastValue(inv.programOptions, "-f") == Some(first)
    requires LastValue(inv.programOptions, "-l") == Some(last)
    requires ParseInt(first).Some? && ParseInt(last).Some?
    ensures RequestedRange(argv) == Some((ParseInt(first).value, ParseInt(last).value))
  {
  }

  /** A launch asks CellProfiler for the images from the batch's start up to its exclusive end minus one. */
  lemma LaunchRange(w: WorkerSpec)
    ensures RequestedRange(LaunchArgs(w)) == Some((w.batch.start as int, w.batch.end - 1))
  {
    LaunchArgsParse(w);
    ProgramLastValues(w);
    ParseIntOfDecimal(w.batch.start);
    ParseIntOfDecimal(w.batch.end - 1);
    RequestedRangeOf(LaunchArgs(w), Invocation(RunOptionsOf(w), ImageName(w.version), "cellprofiler", ProgramOptionsOf(w)),
      IntToDecimal(w.batch.start), IntToDecimal(w.batch.end - 1));
  }

  /** A docker mount `source:target[:ro]` is read-only exactly when it ends in ":ro". */
  predicate ReadOnlyMount(m: string)
  {
    EndsWith(m, ":ro")
  }

  /** An option given exactly once, at index k, has that one value. */
  lemma ValuesAt(opts: seq<Opt>, flag: string, k: nat)
    requires k < |opts| && opts[k].flag == flag && opts[k].value.Some?
    requires forall j :: 0 <= j < |opts| && j != k ==> opts[j].flag != flag
    ensures Values(opts, flag) == {opts[k].value.value}
  {
    assert opts[k].value.value in Values(opts, flag);
  }

  /** The docker options of a launch, with the values left open. */
  lemma RunFlagValues(name: string, memory: string, pipeline: string, output: string, images: string, user: string)
    ensures var run := [ Opt("--name", Some(name)), Opt("--memory", Some(memory)), Opt("--cpus", Some("1")),
                         Opt("--rm", None), Opt("-dit", None), Opt("-v", Some(pipeline)), Opt("-v", Some(output)),
                         Opt("-v", Some(images)), Opt("-u", Some(user)) ];
      && Values(run, "--name") == {name}
      && Values(run, "--memory") == {memory}
      && Values(run, "--cpus") == {"1"}
      && Given(run, "--rm") && Given(run, "-dit")
  {
    var run := [ Opt("--name", Some(name)), Opt("--memory", Some(memory)), Opt("--cpus", Some("1")),
                 Opt("--rm", None), Opt("-dit", None), Opt("-v", Some(pipeline)), Opt("-v", Some(output)),
                 Opt("-v", Some(images)), Opt("-u", Some(user)) ];
    assert run[3].flag == "--rm" && run[4].flag == "-dit";
    ValuesAt(run, "--name", 0);
    ValuesAt(run, "--memory", 1);
    ValuesAt(run, "--cpus", 2);
  }

  /** Docker's name, limits and bare flags for a launch. */
  lemma RunSettings(w: WorkerSpec)
    ensures var run := RunOptionsOf(w);
      && Values(run, "--name") == {ContainerName(w.batch.id)}
      && Values(run, "--memory") == {w.memory}
      && Values(run, "--cpus") == {"1"}
      && Given(run, "--rm") && Given(run, "-dit")
  {
    RunFlagValues(ContainerName(w.batch.id), w.memory, w.pipelineFile + ":/pipeline.cppipe:ro", BatchOutputDir(w) + ":/output",
      w.imageDir + ":/input:ro", NatToDecimal(w.uid) + ":" + NatToDecimal(w.gid));
  }

  /** Docker's mounts for a launch: pipeline and images read-only, the batch's output directory writable. */
  lemma RunMounts(w: WorkerSpec)
    ensures var run := RunOptionsOf(w);
      && Values(run, "-v") == {w.pipelineFile + ":/pipeline.cppipe:ro", BatchOutputDir(w) + ":/output", w.imageDir + ":/input:ro"}
      && ReadOnlyMount(w.pipelineFile + ":/pipeline.cppipe:ro")
      && ReadOnlyMount(w.imageDir + ":/input:ro")
      && !ReadOnlyMount(BatchOutputDir(w) + ":/output")
  {
    var run := RunOptionsOf(w);
    var mounts := {w.pipelineFile + ":/pipeline.cppipe:ro", BatchOutputDir(w) + ":/output", w.imageDir + ":/input:ro"};
    assert run[5].value.value in Values(run, "-v");
    assert run[6].value.value in Values(run, "-v");
    assert run[7].value.value in Values(run, "-v");
    forall v | v in Values(run, "-v") ensures v in mounts {
      var i :| 0 <= i < |run| && run[i].flag == "-v" && run[i].value.Some? && run[i].value.value == v;
      assert i == 5 || i == 6 || i == 7;
    }
    OutputMountWritable(BatchOutputDir(w));
  }

  lemma OutputMountWritable(dir: string)
    ensures !ReadOnlyMount(dir + ":/output")
  {
    var out := dir + ":/output";
    assert out[|out| - 3..] == "put";
  }

  /** Docker's user for a launch reads back as uid:gid. */
  lemma RunUser(w: WorkerSpec)
    ensures var run := RunOptionsOf(w);
      && Values(run, "-u") != {}
      && (forall u :: u in Values(run, "-u") ==> ParseUser(u) == Some((w.uid as int, w.gid as int)))
  {
    var run := RunOptionsOf(w);
    var user := NatToDecimal(w.uid) + ":" + NatToDecimal(w.gid);
    assert run[8].value.value in Values(run, "-u");
    assert Values(run, "-u") == {user};
    UserRoundTrip(w.uid, w.gid);
    forall u | u in Values(run, "-u") ensures ParseUser(u) == Some((w.uid as int, w.gid as int)) {
      assert u == user;
    }
  }

  /** CellProfiler's fixed options for a launch. */
  lemma ProgramSettings(w: WorkerSpec)
    ensures var prog := ProgramOptionsOf(w);
      && Values(prog, "-p") == {"/pipeline.cppipe"}
      && Values(prog, "-i") == {"/input"} && Values(prog, "-o") == {"/output"}
      && Given(prog, "-c") && Given(prog, "-r")
  {
    var prog := ProgramOptionsOf(w);
    assert prog[0].flag == "-c" && prog[1].flag == "-r";
    assert prog[2].value.value in Values(prog, "-p");
    assert prog[5].value.value in Values(prog, "-o");
    assert prog[6].value.value in Values(prog, "-i");
  }

  /** CellProfiler's image range for a launch: `-f` reads back as the start, `-l` as the end minus one. */
  lemma ProgramRange(w: WorkerSpec)
    ensures var prog := ProgramOptionsOf(w);
      && Values(prog, "-f") != {} && Values(prog, "-l") != {}
      && (forall f :: f in Values(prog, "-f") ==> ParseInt(f) == Some(w.batch.start as int))
      && (forall l :: l in Values(prog, "-l") ==> ParseInt(l) == Some(w.batch.end - 1))
  {
    var prog := ProgramOptionsOf(w);
    var first, last := IntToDecimal(w.batch.start), IntToDecimal(w.batch.end - 1);
    assert prog[3].value.value in Values(prog, "-f");
    assert prog[4].value.value in Values(prog, "-l");
    assert Values(prog, "-f") == {first} && Values(prog, "-l") == {last};
    ParseIntOfDecimal(w.batch.start);
    ParseIntOfDecimal(w.batch.end - 1);
    forall f | f in Values(prog, "-f") ensures ParseInt(f) == Some(w.batch.start as int) {
      assert f == first;
    }
    forall l | l in Values(prog, "-l") ensures ParseInt(l) == Some(w.batch.end - 1) {
      assert l == last;
    }
  }

  /**
   * What the launched programs are told. Docker names the container
   * "cellprofiler_" + id, limits it to the given memory and one CPU, removes
   * it on exit and detaches; it mounts the pipeline file and the image
   * directory read-only and the batch's own output directory writable; it
   * runs as uid:gid. CellProfiler runs headless on the mounted pipeline,
   * reading images from /input and writing to /output, from index
   * `batch.start` to the inclusive index `batch.end - 1`.
   */
  lemma LaunchArgsMeaning(w: WorkerSpec)
    ensures ParseRun(LaunchArgs(w)).Some?
    ensures var inv := ParseRun(LaunchArgs(w)).value;
      var run, prog := inv.runOptions, inv.programOptions;
      && inv.image == ImageName(w.version) && inv.program == "cellprofiler"
      && Values(run, "--name") == {ContainerName(w.batch.id)}
      && Values(run, "--memory") == {w.memory}
      && Values(run, "--cpus") == {"1"}
      && Given(run, "--rm") && Given(run, "-dit")
      && Values(run, "-v") == {w.pipelineFile + ":/pipeline.cppipe:ro", BatchOutputDir(w) + ":/output", w.imageDir + ":/input:ro"}
      && ReadOnlyMount(w.pipelineFile + ":/pipeline.cppipe:ro")
      && ReadOnlyMount(w.imageDir + ":/input:ro")
      && !ReadOnlyMount(BatchOutputDir(w) + ":/output")
      && Values(run, "-u") != {}
      && (forall u :: u in Values(run, "-u") ==> ParseUser(u) == Some((w.uid as int, w.gid as int)))
      && Values(prog, "-p") == {"/pipeline.cppipe"}
      && Values(prog, "-i") == {"/input"} && Values(prog, "-o") == {"/output"}
      && Given(prog, "-c") && Given(prog, "-r")
      && Values(prog, "-f") != {} && Values(prog, "-l") != {}
      && (forall f :: f in Values(prog, "-f") ==> ParseInt(f) == Some(w.batch.start as int))
      && (forall l :: l in Values(prog, "-l") ==> ParseInt(l) == Some(w.batch.end - 1))
  {
    LaunchArgsParse(w);
    RunSettings(w);
    RunMounts(w);
    RunUser(w);
    ProgramSettings(w);
    ProgramRange(w);
  }
}
