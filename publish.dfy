/** The run itself (`main_`): validate, resolve the regions, publish the image
    in the home region, copy it to every other region, and collect the map
    from region name to image id. Every remote answer comes from an
    `Environment`; the run records the remote calls it makes, in order. */
module Publish {
  import opened Wrappers
  import opened Strings
  import opened Aws
  import opened Cli
  import opened Image
  import opened Regions

  /** The build metadata read from `nix-support/image-info.json`. */
  datatype ImageInfo = ImageInfo(buildLabel: string, system: string, logicalBytes: u64, file: string)

  /** The command-line options that reach the core. */
  datatype Args = Args(name: Option<string>, regions: string, rootSize: Option<u64>, outputFormat: OutputFormat)

  /** What is printed on success: region name to image id. */
  datatype Output = Output(amis: map<string, string>)

  /** The answers of everything outside the program: the region table
      (`Region::from_str`, `Region::default()`), the disk-header check, and one
      response per remote call. `tag(0)` answers the home image's tagging and
      `tag(i + 1)` the tagging after the `i`-th copy; `copy(i)` answers the
      `i`-th copy. */
  datatype Environment = Environment(
    parse: string -> Option<Region>,
    defaultRegion: Region,
    diskHeader: Result<(), string>,
    pages: seq<PageResponse>,
    upload: Result<string, string>,
    wait: Result<(), string>,
    register: Result<Option<string>, string>,
    tag: nat -> Result<(), string>,
    copy: nat -> Result<Option<string>, string>)

  /** A register or copy response that carries an image id. */
  predicate Returned(response: Result<Option<string>, string>)
  {
    response.Ok? && response.value.Some?
  }

  /** Every step of the home publish goes through. */
  predicate HomeSucceeds(args: Args, info: ImageInfo, env: Environment)
  {
    && env.upload.Ok?
    && env.wait.Ok?
    && RootSize(args.rootSize, info.logicalBytes).Ok?
    && Returned(env.register)
    && env.tag(0).Ok?
  }

  /** How the home publish fails, at its first failing step: a failed upload,
      wait or tagging is returned with `?`; the size overflow, the `expect`
      on a failed registration and the `unwrap` of a missing id panic. */
  function HomeFailure(args: Args, info: ImageInfo, env: Environment): (f: Failure)
    requires !HomeSucceeds(args, info, env)
    ensures f.Panic? <==>
      env.upload.Ok? && env.wait.Ok? && (RootSize(args.rootSize, info.logicalBytes).Err? || !Returned(env.register))
  {
    if env.upload.Err? then RequestFailed("upload_from_file", env.upload.error)
    else if env.wait.Err? then RequestFailed("wait_for_completed", env.wait.error)
    else if RootSize(args.rootSize, info.logicalBytes).Err? then RootSize(args.rootSize, info.logicalBytes).error
    else if env.register.Err? then Panic("could not register ami")
    else if env.register.value.None? then Panic(UnwrapNone)
    else RequestFailed("CreateTags", env.tag(0).error)
  }

  /** The `i`-th copy returns an image id and the tagging after it goes through. */
  predicate CopyStepSucceeds(i: nat, env: Environment)
  {
    Returned(env.copy(i)) && env.tag(i + 1).Ok?
  }

  /** The first `n` copies and their taggings go through. */
  predicate FanOutSucceeds(n: nat, env: Environment)
  {
    forall i :: 0 <= i < n ==> CopyStepSucceeds(i, env)
  }

  /** The id the `i`-th copy returned. */
  function CopiedId(i: nat, env: Environment): string
    requires Returned(env.copy(i))
  {
    env.copy(i).value.value
  }

  /** The names of a list of regions. */
  function Names(regions: seq<Region>): (names: set<string>)
    ensures forall r :: r in regions ==> r.name in names
  {
    if |regions| == 0 then {}
    else Names(regions[..|regions| - 1]) + {regions[|regions| - 1].name}
  }

  /** A region that is not listed does not have its name in `Names`. */
  lemma {:induction false} NamesExclude(regions: seq<Region>, x: Region)
    requires x !in regions
    ensures x.name !in Names(regions)
    decreases |regions|
  {
    if |regions| > 0 {
      var last := |regions| - 1;
      assert regions[last] != x;
      NamesExclude(regions[..last], x);
    }
  }

  /** `Names` holds exactly the names of the listed regions. */
  lemma {:induction false} NamesExactly(regions: seq<Region>, n: string)
    ensures n in Names(regions) <==> exists r :: r in regions && r.name == n
    decreases |regions|
  {
    if |regions| > 0 {
      var last := |regions| - 1;
      NamesExactly(regions[..last], n);
      assert regions == regions[..last] + [regions[last]];
      if n in Names(regions) && n != regions[last].name {
        var r :| r in regions[..last] && r.name == n;
        assert r in regions;
      }
    }
  }

  /** No later entry of `regions[..n]` repeats `regions[j]`. */
  predicate LastUpTo(regions: seq<Region>, j: nat, n: nat)
    requires j < n <= |regions|
  {
    forall m :: j < m < n ==> regions[m] != regions[j]
  }

  /** The calls the home publish makes, through the home region's client:
      the upload, then the wait once a snapshot id exists, then the
      registration once the snapshot is complete and the size is known, then
      the name tag once the registration returned an id. */
  function HomeCalls(args: Args, info: ImageInfo, home: Region, env: Environment): (calls: seq<Call>)
    ensures 1 <= |calls| <= 4 && calls[0] == UploadSnapshot(home, info.file, info.buildLabel)
    ensures HomeSucceeds(args, info, env) ==> |calls| == 4
    ensures forall c :: c in calls ==> c.client == home && !c.CopyImage? && !c.GetParametersByPath?
    ensures forall c :: c in calls && c.WaitForSnapshot? ==> env.upload.Ok? && c.snapshotId == env.upload.value
    ensures forall c :: c in calls && c.RegisterImage? ==>
      && env.upload.Ok? && env.wait.Ok? && RootSize(args.rootSize, info.logicalBytes).Ok?
      && c.register == RegisterRequest(AmiName(args.name, NixosName(info.buildLabel, info.system)),
                                       info.buildLabel, info.system, env.upload.value,
                                       RootSize(args.rootSize, info.logicalBytes).value)
    ensures forall c :: c in calls && c.CreateTags? ==>
      Returned(env.register) && c.tagging == NameTag(env.register.value.value, NixosName(info.buildLabel, info.system))
  {
    var nixosName := NixosName(info.buildLabel, info.system);
    var upload := UploadSnapshot(home, info.file, info.buildLabel);
    if env.upload.Err? then [upload]
    else
      var wait := WaitForSnapshot(home, env.upload.value);
      var gbs := RootSize(args.rootSize, info.logicalBytes);
      if env.wait.Err? || gbs.Err? then [upload, wait]
      else
        var register := RegisterImage(home, RegisterRequest(AmiName(args.name, nixosName), info.buildLabel, info.system,
                                                            env.upload.value, gbs.value));
        if !Returned(env.register) then [upload, wait, register]
        else [upload, wait, register, CreateTags(home, NameTag(env.register.value.value, nixosName))]
  }

  /** Upload the snapshot, wait for it, size the root volume, register the
      image and tag it, all in the home region; the image id on success. A
      failed upload, wait or tagging returns an error; a failed or id-less
      registration panics. */
  method PublishHome(args: Args, info: ImageInfo, home: Region, env: Environment)
    returns (r: Result<string, Failure>, calls: seq<Call>)
    ensures r.Ok? <==> HomeSucceeds(args, info, env)
    ensures r.Ok? ==> r.value == env.register.value.value
    ensures env.upload.Err? ==> r == Err(RequestFailed("upload_from_file", env.upload.error))
    ensures env.upload.Ok? && env.wait.Err? ==> r == Err(RequestFailed("wait_for_completed", env.wait.error))
    ensures env.upload.Ok? && env.wait.Ok? && RootSize(args.rootSize, info.logicalBytes).Err? ==>
      r == Err(Panic("attempt to add with overflow"))
    ensures env.upload.Ok? && env.wait.Ok? && RootSize(args.rootSize, info.logicalBytes).Ok? && env.register.Err? ==>
      r == Err(Panic("could not register ami"))
    ensures env.upload.Ok? && env.wait.Ok? && RootSize(args.rootSize, info.logicalBytes).Ok? && env.register.Ok? && env.register.value.None? ==>
      r == Err(Panic(UnwrapNone))
    ensures env.upload.Ok? && env.wait.Ok? && RootSize(args.rootSize, info.logicalBytes).Ok? && Returned(env.register) && env.tag(0).Err? ==>
      r == Err(RequestFailed("CreateTags", env.tag(0).error))
    ensures r.Err? ==> r.error == HomeFailure(args, info, env)
    ensures calls == HomeCalls(args, info, home, env)
  {
    calls := [UploadSnapshot(home, info.file, info.buildLabel)];
    if env.upload.Err? {
      r := Err(RequestFailed("upload_from_file", env.upload.error));
      return;
    }
    var snapshotId := env.upload.value;
    calls := calls + [WaitForSnapshot(home, snapshotId)];
    if env.wait.Err? {
      r := Err(RequestFailed("wait_for_completed", env.wait.error));
      return;
    }
    var amiGbs := RootSize(args.rootSize, info.logicalBytes);
    if amiGbs.Err? {
      r := Err(amiGbs.error);
      return;
    }
    var nixosName := NixosName(info.buildLabel, info.system);
    var amiName := AmiName(args.name, nixosName);
    calls := calls + [RegisterImage(home, RegisterRequest(amiName, info.buildLabel, info.system, snapshotId, amiGbs.value))];
    if env.register.Err? {
      r := Err(Panic("could not register ami"));
      return;
    }
    if env.register.value.None? {
      r := Err(Panic(UnwrapNone));
      return;
    }
    var initAmiId := env.register.value.value;
    calls := calls + [CreateTags(home, NameTag(initAmiId, nixosName))];
    if env.tag(0).Err? {
      r := Err(RequestFailed("CreateTags", env.tag(0).error));
      return;
    }
    r := Ok(initAmiId);
  }

  /** Keys of `amis` outside `touched` keep their values in `output`. */
  predicate KeptOutside(output: map<string, string>, amis: map<string, string>, touched: set<string>)
  {
    forall k :: k in amis && k !in touched ==> k in output && output[k] == amis[k]
  }

  /** Each of the first `n` copy regions maps to the id of its last copy
      among them. */
  predicate LatestCopies(output: map<string, string>, copyRegions: seq<Region>, n: nat, env: Environment)
    requires n <= |copyRegions|
  {
    forall j :: 0 <= j < n && LastUpTo(copyRegions, j, n) ==>
      Returned(env.copy(j)) && copyRegions[j].name in output && output[copyRegions[j].name] == CopiedId(j, env)
  }

  /** `output` is `amis` with the ids of the first `n` copies recorded under
      their regions' names; where a region is copied to twice, the later copy
      wins; keys of `amis` that no copy touched keep their values. */
  predicate Recorded(output: map<string, string>, amis: map<string, string>, copyRegions: seq<Region>, n: nat, env: Environment)
    requires n <= |copyRegions|
  {
    && output.Keys == amis.Keys + Names(copyRegions[..n])
    && KeptOutside(output, amis, Names(copyRegions[..n]))
    && LatestCopies(output, copyRegions, n, env)
  }

  /** The names of one more region are the names before plus its own. */
  lemma NamesSnoc(regions: seq<Region>, i: nat)
    requires i < |regions|
    ensures Names(regions[..i + 1]) == Names(regions[..i]) + {regions[i].name}
  {
    assert regions[..i + 1][..i] == regions[..i];
  }

  /** Recording the `i`-th copy keeps every region's latest copy. */
  lemma LatestStep(output: map<string, string>, copyRegions: seq<Region>, i: nat, env: Environment)
    requires i < |copyRegions| && Returned(env.copy(i))
    requires LatestCopies(output, copyRegions, i, env)
    ensures LatestCopies(output[copyRegions[i].name := CopiedId(i, env)], copyRegions, i + 1, env)
  {
    var after := output[copyRegions[i].name := CopiedId(i, env)];
    forall j | 0 <= j < i + 1 && LastUpTo(copyRegions, j, i + 1)
      ensures Returned(env.copy(j)) && copyRegions[j].name in after && after[copyRegions[j].name] == CopiedId(j, env)
    {
      if j < i {
        assert copyRegions[i] != copyRegions[j];
        assert LastUpTo(copyRegions, j, i);
      }
    }
  }

  /** Recording the `i`-th copy extends what is recorded by one region. */
  lemma RecordStep(output: map<string, string>, amis: map<string, string>, copyRegions: seq<Region>, i: nat, env: Environment)
    requires i < |copyRegions| && Returned(env.copy(i))
    requires Recorded(output, amis, copyRegions, i, env)
    ensures Recorded(output[copyRegions[i].name := CopiedId(i, env)], amis, copyRegions, i + 1, env)
  {
    NamesSnoc(copyRegions, i);
    LatestStep(output, copyRegions, i, env);
  }

  /** What every step of the fan-out works from: the copy regions in order,
      the home region, the home image's id, the display name the copies get
      and the derived name the tags carry. */
  datatype FanOutPlan = FanOutPlan(copyRegions: seq<Region>, home: Region, initAmiId: string, amiName: string, nixosName: string)

  /** The copy request of the fan-out's `i`-th step, through the `i`-th copy
      region's client. */
  function CopyCall(plan: FanOutPlan, i: nat): (c: Call)
    requires i < |plan.copyRegions|
    ensures c.CopyImage? && c.client == plan.copyRegions[i] && c.copy.sourceImageId == plan.initAmiId
  {
    CopyImage(plan.copyRegions[i], CopyRequest(plan.amiName, plan.initAmiId, plan.home))
  }

  /** The tagging of the fan-out's `i`-th step: the derived name on the HOME
      image, through the `i`-th copy region's client. */
  function TagCall(plan: FanOutPlan, i: nat): (c: Call)
    requires i < |plan.copyRegions|
    ensures c.CreateTags? && c.client == plan.copyRegions[i] && c.tagging.resources == [plan.initAmiId]
  {
    CreateTags(plan.copyRegions[i], NameTag(plan.initAmiId, plan.nixosName))
  }

  /** A call the fan-out makes: through the client of a copy region, either
      the copy of the home image under the display name, or the name tag on
      the home image. */
  predicate FanOutCall(c: Call, plan: FanOutPlan)
  {
    && c.client in plan.copyRegions
    && ((c.CopyImage? && c.copy == CopyRequest(plan.amiName, plan.initAmiId, plan.home))
        || (c.CreateTags? && c.tagging == NameTag(plan.initAmiId, plan.nixosName)))
  }

  /** The calls of the fan-out from the `i`-th copy region on: for each
      region, through its own client, the copy of the home image, then (once
      the copy returned an id) the name tag on the home image; nothing after
      the first step that fails. */
  function FanOutCalls(plan: FanOutPlan, env: Environment, i: nat): (calls: seq<Call>)
    requires i <= |plan.copyRegions|
    ensures forall c :: c in calls ==> FanOutCall(c, plan)
    ensures |calls| <= 2 * (|plan.copyRegions| - i)
    decreases |plan.copyRegions| - i
  {
    if i == |plan.copyRegions| then []
    else if !Returned(env.copy(i)) then [CopyCall(plan, i)]
    else if env.tag(i + 1).Err? then [CopyCall(plan, i), TagCall(plan, i)]
    else [CopyCall(plan, i), TagCall(plan, i)] + FanOutCalls(plan, env, i + 1)
  }

  /** Step `i` of `n` is the first fan-out step that fails. */
  predicate FailsAt(i: nat, n: nat, env: Environment)
  {
    i < n && FanOutSucceeds(i, env) && !CopyStepSucceeds(i, env)
  }

  /** How the `i`-th fan-out step fails: the `expect` on a failed copy and the
      `unwrap` of a missing id panic, a failed tagging is returned with `?`. */
  function StepFailure(i: nat, env: Environment): (f: Failure)
    requires !CopyStepSucceeds(i, env)
    ensures f.Panic? <==> !Returned(env.copy(i))
  {
    if env.copy(i).Err? then Panic("could not copy ami to region")
    else if env.copy(i).value.None? then Panic(UnwrapNone)
    else RequestFailed("CreateTags", env.tag(i + 1).error)
  }

  /** The fan-out before its `i`-th step: the first `i` steps went through,
      their ids are recorded, and their copy-then-tag pairs are the calls so
      far, which the calls from step `i` on complete to the whole trace. */
  ghost predicate Copying(output: map<string, string>, calls: seq<Call>, amis: map<string, string>, plan: FanOutPlan,
                          env: Environment, i: nat)
  {
    && i <= |plan.copyRegions|
    && FanOutSucceeds(i, env)
    && Recorded(output, amis, plan.copyRegions, i, env)
    && |calls| == 2 * i
    && calls + FanOutCalls(plan, env, i) == FanOutCalls(plan, env, 0)
  }

  /** The fan-out starts with nothing copied and nothing called. */
  lemma CopyingStarts(amis: map<string, string>, plan: FanOutPlan, env: Environment)
    ensures Copying(amis, [], amis, plan, env, 0)
  {
    assert plan.copyRegions[..0] == [];
    assert [] + FanOutCalls(plan, env, 0) == FanOutCalls(plan, env, 0);
  }

  /** A step that fails is the first failing step and ends the trace: with
      the copy alone when the copy returned no id, with the copy and the tag
      otherwise. */
  lemma CopyingFails(output: map<string, string>, calls: seq<Call>, amis: map<string, string>, plan: FanOutPlan,
                     env: Environment, i: nat)
    requires Copying(output, calls, amis, plan, env, i)
    requires i < |plan.copyRegions| && !CopyStepSucceeds(i, env)
    ensures FailsAt(i, |plan.copyRegions|, env) && !FanOutSucceeds(|plan.copyRegions|, env)
    ensures !Returned(env.copy(i)) ==> calls + [CopyCall(plan, i)] == FanOutCalls(plan, env, 0)
    ensures Returned(env.copy(i)) ==> calls + [CopyCall(plan, i)] + [TagCall(plan, i)] == FanOutCalls(plan, env, 0)
  {
    if Returned(env.copy(i)) {
      assert calls + [CopyCall(plan, i)] + [TagCall(plan, i)] == calls + [CopyCall(plan, i), TagCall(plan, i)];
    }
  }

  /** A step that goes through records its id and extends the trace by its
      copy and its tag. */
  lemma CopyingContinues(output: map<string, string>, calls: seq<Call>, amis: map<string, string>, plan: FanOutPlan,
                         env: Environment, i: nat)
    requires Copying(output, calls, amis, plan, env, i)
    requires i < |plan.copyRegions| && CopyStepSucceeds(i, env)
    ensures Copying(output[plan.copyRegions[i].name := CopiedId(i, env)], calls + [CopyCall(plan, i)] + [TagCall(plan, i)],
                    amis, plan, env, i + 1)
  {
    RecordStep(output, amis, plan.copyRegions, i, env);
    TraceStep(calls, plan, env, i);
    SucceedsStep(i, env);
  }

  /** One successful step moves its copy and its tag from the rest of the
      trace to the calls made. */
  lemma TraceStep(calls: seq<Call>, plan: FanOutPlan, env: Environment, i: nat)
    requires i < |plan.copyRegions| && CopyStepSucceeds(i, env)
    requires calls + FanOutCalls(plan, env, i) == FanOutCalls(plan, env, 0)
    ensures calls + [CopyCall(plan, i)] + [TagCall(plan, i)] + FanOutCalls(plan, env, i + 1) == FanOutCalls(plan, env, 0)
  {
    var rest := FanOutCalls(plan, env, i + 1);
    assert FanOutCalls(plan, env, i) == [CopyCall(plan, i), TagCall(plan, i)] + rest;
    assert calls + [CopyCall(plan, i)] + [TagCall(plan, i)] + rest == calls + ([CopyCall(plan, i), TagCall(plan, i)] + rest);
  }

  /** One more successful step. */
  lemma SucceedsStep(i: nat, env: Environment)
    requires FanOutSucceeds(i, env) && CopyStepSucceeds(i, env)
    ensures FanOutSucceeds(i + 1, env)
  {
  }

  /** After the last step the calls so far are the whole trace. */
  lemma CopyingEnds(output: map<string, string>, calls: seq<Call>, amis: map<string, string>, plan: FanOutPlan, env: Environment)
    requires Copying(output, calls, amis, plan, env, |plan.copyRegions|)
    ensures calls == FanOutCalls(plan, env, 0)
  {
    assert calls + [] == calls;
  }

  /** The `for region in &copy_regions` loop: copy the home image into the
      region, record the copy's id under the region's name, then tag, through
      that region's client, the HOME image id. A failed or id-less copy
      panics and a failed tagging returns an error, so the loop either
      completes or aborts the run. */
  method FanOut(amis: map<string, string>, plan: FanOutPlan, env: Environment)
    returns (r: Result<map<string, string>, Failure>, calls: seq<Call>)
    ensures r.Ok? <==> FanOutSucceeds(|plan.copyRegions|, env)
    ensures r.Ok? ==> Recorded(r.value, amis, plan.copyRegions, |plan.copyRegions|, env)
    ensures r.Ok? ==> |calls| == 2 * |plan.copyRegions|
    ensures r.Err? ==> exists i :: FailsAt(i, |plan.copyRegions|, env) && r.error == StepFailure(i, env)
    ensures calls == FanOutCalls(plan, env, 0)
    ensures forall c :: c in calls ==> FanOutCall(c, plan)
  {
    var output := amis;
    calls := [];
    CopyingStarts(amis, plan, env);
    for i := 0 to |plan.copyRegions|
      invariant Copying(output, calls, amis, plan, env, i)
    {
      var region := plan.copyRegions[i];
      ghost var before := calls;
      calls := calls + [CopyImage(region, CopyRequest(plan.amiName, plan.initAmiId, plan.home))];
      var response := env.copy(i);
      if response.Err? {
        CopyingFails(output, before, amis, plan, env, i);
        r := Err(Panic("could not copy ami to region"));
        return;
      }
      if response.value.None? {
        CopyingFails(output, before, amis, plan, env, i);
        r := Err(Panic(UnwrapNone));
        return;
      }
      var imageId := response.value.value;
      calls := calls + [CreateTags(region, NameTag(plan.initAmiId, plan.nixosName))];
      if env.tag(i + 1).Err? {
        CopyingFails(output, before, amis, plan, env, i);
        r := Err(RequestFailed("CreateTags", env.tag(i + 1).error));
        return;
      }
      CopyingContinues(output, before, amis, plan, env, i);
      output := output[region.name := imageId];
    }
    CopyingEnds(output, calls, amis, plan, env);
    r := Ok(output);
  }

  /** The fan-out of a run: the home image's registered id, the display name
      and the derived name, for the given copy regions. */
  function Plan(copyRegions: seq<Region>, home: Region, args: Args, info: ImageInfo, env: Environment): FanOutPlan
    requires Returned(env.register)
  {
    var nixosName := NixosName(info.buildLabel, info.system);
    FanOutPlan(copyRegions, home, env.register.value.value, AmiName(args.name, nixosName), nixosName)
  }

  /** Every tagging in `calls` puts the derived name on the registered home
      image, and every copy copies that image under the display name. */
  predicate Traced(calls: seq<Call>, args: Args, info: ImageInfo, env: Environment)
  {
    forall c :: c in calls ==>
      && (c.CreateTags? ==>
            Returned(env.register) && c.tagging == NameTag(env.register.value.value, NixosName(info.buildLabel, info.system)))
      && (c.CopyImage? ==>
            && Returned(env.register)
            && c.copy.sourceImageId == env.register.value.value
            && c.copy.name == AmiName(args.name, NixosName(info.buildLabel, info.system)))
  }

  lemma TracedAppend(a: seq<Call>, b: seq<Call>, args: Args, info: ImageInfo, env: Environment)
    requires Traced(a, args, info, env) && Traced(b, args, info, env)
    ensures Traced(a + b, args, info, env)
  {
  }

  /** The home publish's calls tag and copy only the registered image. */
  lemma HomeCallsTraced(args: Args, info: ImageInfo, home: Region, env: Environment)
    ensures Traced(HomeCalls(args, info, home, env), args, info, env)
  {
  }

  /** Fan-out calls made with the registered id and the derived names tag and
      copy only the registered image. */
  lemma FanOutTraced(calls: seq<Call>, copyRegions: seq<Region>, home: Region, args: Args, info: ImageInfo, env: Environment)
    requires Returned(env.register)
    requires forall c :: c in calls ==> FanOutCall(c, Plan(copyRegions, home, args, info, env))
    ensures Traced(calls, args, info, env)
  {
  }

  /** The remote calls of a whole run: none when the system or the disk is
      refused; otherwise the listing calls of region selection, then, once a
      selection exists, the home publish's calls, then, once the home image
      is tagged, the fan-out's calls. */
  function RunCalls(args: Args, info: ImageInfo, env: Environment): (calls: seq<Call>)
    requires Split(args.regions, ',')[0] == Sentinel ==> Ends(env.pages, env.parse)
    ensures forall c :: c in calls && c.UploadSnapshot? ==> Resolve(args.regions, env.parse, env.defaultRegion, env.pages).Ok?
    ensures forall c :: c in calls && c.CopyImage? ==> HomeSucceeds(args, info, env)
    ensures Traced(calls, args, info, env)
  {
    if info.system != SupportedSystem || env.diskHeader.Err? then []
    else
      var listing := SelectionCalls(args.regions, env.parse, env.defaultRegion, env.pages);
      var selection := Resolve(args.regions, env.parse, env.defaultRegion, env.pages);
      if selection.Err? then listing
      else
        var home := selection.value.home;
        var homeCalls := HomeCalls(args, info, home, env);
        HomeCallsTraced(args, info, home, env);
        TracedAppend(listing, homeCalls, args, info, env);
        if !HomeSucceeds(args, info, env) then listing + homeCalls
        else
          var copyCalls := FanOutCalls(Plan(selection.value.copies, home, args, info, env), env, 0);
          FanOutTraced(copyCalls, selection.value.copies, home, args, info, env);
          TracedAppend(listing + homeCalls, copyCalls, args, info, env);
          listing + homeCalls + copyCalls
  }

  /** `main_` from the validated metadata on: check the system and the disk,
      resolve the regions, publish in the home region, insert the home entry,
      fan out, and return the map to print. */
  method Run(args: Args, info: ImageInfo, env: Environment) returns (outcome: Result<Output, Failure>, calls: seq<Call>)
    requires Split(args.regions, ',')[0] == Sentinel ==> Ends(env.pages, env.parse)
    ensures info.system != SupportedSystem ==> outcome == Err(UnsupportedSystem(info.system)) && calls == []
    ensures env.diskHeader.Err? ==> outcome.Err? && calls == []
    ensures info.system == SupportedSystem && env.diskHeader.Err? ==> outcome == Err(InvalidDiskImage(env.diskHeader.error))
    ensures var selection := Resolve(args.regions, env.parse, env.defaultRegion, env.pages);
      info.system == SupportedSystem && env.diskHeader.Ok? && selection.Err? ==> outcome == Err(selection.error)
    ensures var selection := Resolve(args.regions, env.parse, env.defaultRegion, env.pages);
      info.system == SupportedSystem && env.diskHeader.Ok? && selection.Ok? && !HomeSucceeds(args, info, env) ==>
        outcome == Err(HomeFailure(args, info, env))
    ensures var selection := Resolve(args.regions, env.parse, env.defaultRegion, env.pages);
      info.system == SupportedSystem && env.diskHeader.Ok? && selection.Ok? && HomeSucceeds(args, info, env)
      && !FanOutSucceeds(|selection.value.copies|, env) ==>
        outcome.Err? && exists i :: FailsAt(i, |selection.value.copies|, env) && outcome.error == StepFailure(i, env)
    ensures var selection := Resolve(args.regions, env.parse, env.defaultRegion, env.pages);
      outcome.Ok? <==>
        && info.system == SupportedSystem
        && env.diskHeader.Ok?
        && selection.Ok?
        && HomeSucceeds(args, info, env)
        && FanOutSucceeds(|selection.value.copies|, env)
    ensures outcome.Ok? ==>
      var selection := Resolve(args.regions, env.parse, env.defaultRegion, env.pages).value;
      && outcome.value.amis.Keys == {selection.home.name} + Names(selection.copies)
      && outcome.value.amis[selection.home.name] == env.register.value.value
      && forall i :: 0 <= i < |selection.copies| && LastUpTo(selection.copies, i, |selection.copies|) ==>
           CopyStepSucceeds(i, env) && outcome.value.amis[selection.copies[i].name] == CopiedId(i, env)
    ensures calls == RunCalls(args, info, env)
  {
    calls := [];
    var system := CheckSystem(info.system);
    if system.Err? {
      outcome := Err(system.error);
      return;
    }
    if env.diskHeader.Err? {
      outcome := Err(InvalidDiskImage(env.diskHeader.error));
      return;
    }
    var selection;
    selection, calls := ResolveRegions(args.regions, env.parse, env.defaultRegion, env.pages);
    if selection.Err? {
      outcome := Err(selection.error);
      return;
    }
    var home := selection.value.home;
    var copyRegions := selection.value.copies;

    var published, homeCalls := PublishHome(args, info, home, env);
    calls := calls + homeCalls;
    if published.Err? {
      outcome := Err(published.error);
      return;
    }
    var initAmiId := published.value;
    var nixosName := NixosName(info.buildLabel, info.system);
    var amiName := AmiName(args.name, nixosName);

    var amis := map[home.name := initAmiId];
    NamesExclude(copyRegions, home);
    var copied, copyCalls := FanOut(amis, FanOutPlan(copyRegions, home, initAmiId, amiName, nixosName), env);
    calls := calls + copyCalls;
    if copied.Err? {
      outcome := Err(copied.error);
      return;
    }
    assert copyRegions[..|copyRegions|] == copyRegions;
    outcome := Ok(Output(copied.value));
  }
}
