/** The C sample that switches a reader's autonomous read mode on or off:
    its command-line validation and its fail-fast sequence of SDK calls.
    The SDK itself is not part of this model: each call is a `Step`, and the
    status the SDK returns for it is given by an `Sdk` oracle. Every status
    goes through `checkerr`, which ends the program with exit status 1 on
    the first one that is not success. */
module NanoConfiguration {
  import opened Wrappers
  import opened MachineInts
  import TagDataHeader
  import NanoPrinters

  /* ---------------------------------------------------------------------- */
  /* Command line                                                           */
  /* ---------------------------------------------------------------------- */

  /** The autonomous read option: "true" (enable) or "false" (disable) in
      the program's option buffer. */
  datatype Mode = Enable | Disable

  /** The mode an argument selects, compared exactly as `strcmp` does. */
  function ModeFlag(arg: string): Option<Mode>
  {
    if arg == "--enable" then Some(Enable)
    else if arg == "--disable" then Some(Disable)
    else None
  }

  /** Why the program printed its usage message and exited with status 1;
      indexes are positions in `argv`. */
  datatype UsageReason =
    | MissingReaderUri
    | UnrecognizedArgument(index: nat)
    | DuplicateModeFlag(index: nat)
    | NoModeFlag

  datatype Arguments = UsageError(reason: UsageReason) | Arguments(uri: string, mode: Mode)

  /** The loop over `argv[i..]`, with the option chosen so far. */
  function ScanFlags(argv: seq<string>, i: nat, mode: Option<Mode>): Result<Option<Mode>, UsageReason>
    requires 2 <= i <= |argv|
    decreases |argv| - i
  {
    if i == |argv| then Success(mode)
    else
      match ModeFlag(argv[i])
      case None => Failure(UnrecognizedArgument(i))
      case Some(m) =>
        if mode.Some? then Failure(DuplicateModeFlag(i))
        else ScanFlags(argv, i + 1, Some(m))
  }

  /** `main`'s argument validation. `argv[0]` is the program name and
      `argv[1]` the reader URI. */
  function ParseArgs(argv: seq<string>): Arguments
  {
    if |argv| < 2 then UsageError(MissingReaderUri)
    else
      match ScanFlags(argv, 2, None)
      case Failure(reason) => UsageError(reason)
      case Success(None) => UsageError(NoModeFlag)
      case Success(Some(m)) => Arguments(argv[1], m)
  }

  /** Every way of being rejected: too few arguments, an argument that is
      not a mode flag, a second mode flag (the same one or the other one),
      or no mode flag at all. */
  lemma ParseArgsRejects(argv: seq<string>)
    ensures |argv| < 2 ==> ParseArgs(argv) == UsageError(MissingReaderUri)
    ensures |argv| == 2 ==> ParseArgs(argv) == UsageError(NoModeFlag)
    ensures |argv| >= 3 && ModeFlag(argv[2]).None? ==>
              ParseArgs(argv) == UsageError(UnrecognizedArgument(2))
    ensures |argv| >= 4 && ModeFlag(argv[2]).Some? && ModeFlag(argv[3]).None? ==>
              ParseArgs(argv) == UsageError(UnrecognizedArgument(3))
    ensures |argv| >= 4 && ModeFlag(argv[2]).Some? && ModeFlag(argv[3]).Some? ==>
              ParseArgs(argv) == UsageError(DuplicateModeFlag(3))
  {
    if |argv| >= 3 && ModeFlag(argv[2]).Some? {
      var m := ModeFlag(argv[2]).value;
      assert ScanFlags(argv, 2, None) == ScanFlags(argv, 3, Some(m));
    }
  }

  /** The arguments are accepted exactly when one mode flag, and nothing
      else, follows the URI; the URI and mode are then the given ones. */
  lemma ParseArgsAccepts(argv: seq<string>)
    ensures ParseArgs(argv).Arguments? <==> |argv| == 3 && ModeFlag(argv[2]).Some?
    ensures ParseArgs(argv).Arguments? ==>
              ParseArgs(argv) == Arguments(argv[1], ModeFlag(argv[2]).value)
  {
    ParseArgsRejects(argv);
    if |argv| == 3 && ModeFlag(argv[2]).Some? {
      var m := ModeFlag(argv[2]).value;
      assert ScanFlags(argv, 2, None) == ScanFlags(argv, 3, Some(m)) == Success(Some(m));
    }
  }

  /** Any argument after the URI that is not exactly a mode flag makes the
      program exit through `usage`. */
  lemma UnrecognizedArgumentRejected(argv: seq<string>, j: nat)
    requires 2 <= j < |argv| && ModeFlag(argv[j]).None?
    ensures ParseArgs(argv).UsageError?
  {
    ParseArgsAccepts(argv);
  }

  /** The verdict is always reached by `argv[3]`, so the loop's `uint8_t`
      counter never gets near wrapping, however many arguments there are. */
  lemma DecidedByFourthArgument(argv: seq<string>)
    ensures ParseArgs(argv).UsageError? ==>
      match ParseArgs(argv).reason
      case UnrecognizedArgument(i) => i <= 3
      case DuplicateModeFlag(i) => i == 3
      case _ => true
  {
    ParseArgsRejects(argv);
    ParseArgsAccepts(argv);
  }

  /** The argument loop as written, with its 8-bit loop counter. */
  method ValidateArguments(argv: seq<string>) returns (r: Arguments)
    ensures r == ParseArgs(argv)
  {
    if |argv| < 2 {
      return UsageError(MissingReaderUri);
    }
    var mode: Option<Mode> := None;
    var i: uint8 := 2;
    while i < |argv|
      invariant 2 <= i <= 3 && i <= |argv|
      invariant mode.None? <==> i == 2
      invariant ScanFlags(argv, i, mode) == ScanFlags(argv, 2, None)
      decreases 3 - i
    {
      var flag := ModeFlag(argv[i]);
      if flag.None? {
        return UsageError(UnrecognizedArgument(i));
      }
      if mode.Some? {
        return UsageError(DuplicateModeFlag(i));
      }
      mode := flag;
      i := (i + 1) % TWO_8;
    }
    if mode.None? {
      return UsageError(NoModeFlag);
    }
    return Arguments(argv[1], mode.value);
  }

  /* ---------------------------------------------------------------------- */
  /* SDK calls                                                              */
  /* ---------------------------------------------------------------------- */

  datatype Region = NA3
  datatype Session = S0
  datatype TagEncoding = MillerM8
  datatype MemoryBank = TidBank

  /** The user-configuration operations the sample asks for. */
  datatype UserConfigOp = ClearConfig | SaveWithReadPlan | RestoreConfig

  /** One SDK call, with the values the sample passes to it. */
  datatype Step =
    | CreateReader(uri: string)
    | ConnectReader
    | InitUserConfig(op: UserConfigOp)
    | SetUserConfig(op: UserConfigOp)
    | SetRegion(region: Region)
    | SetBaudRate(baud: nat)
    | SetReadPower(centiDbm: nat)
    | SetGen2Blf(blf: TagDataHeader.LinkFrequency)
    | SetGen2Session(session: Session)
    | SetGen2Target(target: TagDataHeader.Target)
    | SetGen2TagEncoding(encoding: TagEncoding)
    | SetAsyncOnTime(ms: nat)
    | SetUniqueByData(unique: bool)
    | InitSimpleReadPlan(antennas: seq<nat>, protocol: NanoPrinters.TagProtocol, weight: nat)
    | InitGen2ReadDataTagOp(bank: MemoryBank, wordAddress: nat, wordCount: nat)
    | SetReadPlanTagOp
    | SetEnableAutonomousRead(on: bool)
    | CommitReadPlan
    | ReceiveAutonomousReading
    | DestroyReader

  /** A `TMR_Status` value other than `TMR_SUCCESS`, which is 0 in the
      SDK's status header (not part of this model); the test after each call
      treats every such value as an error. */
  type ErrorCode = c: int | c != 0 witness 1

  /** A `TMR_Status`: success, or some error code. */
  datatype Status = TmrSuccess | TmrError(code: ErrorCode)

  /** The SDK's answer to a call, given the calls made before it. */
  type Sdk = (seq<Step>, Step) -> Status

  /** The calls of the disable path: clear the saved configuration. */
  const DisableSteps: seq<Step> := [InitUserConfig(ClearConfig), SetUserConfig(ClearConfig)]

  /** The calls of the enable path, in program order: radio and Gen2
      settings, a read plan with an embedded TID read and the autonomous
      flag, commit, save with the read plan, restore (which starts the
      autonomous reads), and the non-threaded build's receive call. */
  const EnableSteps: seq<Step> := [
    SetRegion(NA3),
    SetBaudRate(115200),
    SetReadPower(2700),
    SetGen2Blf(TagDataHeader.Lf250kHz),
    SetGen2Session(S0),
    SetGen2Target(TagDataHeader.TargetA),
    SetGen2TagEncoding(MillerM8),
    SetAsyncOnTime(1000),
    SetUniqueByData(false),
    InitSimpleReadPlan([1], NanoPrinters.Gen2, 1000),
    InitGen2ReadDataTagOp(TidBank, 3, 3),
    SetReadPlanTagOp,
    SetEnableAutonomousRead(true),
    CommitReadPlan,
    InitUserConfig(SaveWithReadPlan),
    SetUserConfig(SaveWithReadPlan),
    InitUserConfig(RestoreConfig),
    SetUserConfig(RestoreConfig),
    ReceiveAutonomousReading
  ]

  /** Every call the program makes for a mode, each one checked. */
  function Plan(uri: string, mode: Mode): seq<Step>
  {
    [CreateReader(uri), ConnectReader] + (if mode == Disable then DisableSteps else EnableSteps)
  }

  /** Call `j` of `plan` succeeds when made after the calls before it. */
  ghost predicate CallOk(plan: seq<Step>, sdk: Sdk, j: nat)
    requires j < |plan|
  {
    sdk(plan[..j], plan[j]).TmrSuccess?
  }

  /** Calls `from` up to `k` of `plan` (excluded) all succeed. */
  ghost predicate SucceedFrom(plan: seq<Step>, sdk: Sdk, from: nat, k: nat)
    requires k <= |plan|
  {
    forall j :: from <= j < k ==> CallOk(plan, sdk, j)
  }

  /** The first `k` calls of `plan` all succeed. */
  ghost predicate Succeed(plan: seq<Step>, sdk: Sdk, k: nat)
    requires k <= |plan|
  {
    SucceedFrom(plan, sdk, 0, k)
  }

  datatype RunResult = Completed(calls: seq<Step>) | Aborted(calls: seq<Step>, status: Status)

  /** Make the calls of `plan` from call `next` on, passing each status to
      `checkerr`: the first failure ends the run. The history the SDK sees
      before call `j` is the calls before it. */
  function Execute(plan: seq<Step>, sdk: Sdk, next: nat): (r: RunResult)
    requires next <= |plan|
    ensures r.Completed? <==> SucceedFrom(plan, sdk, next, |plan|)
    ensures r.Completed? ==> r.calls == plan
    ensures r.Aborted? ==>
      var k := |r.calls| - 1;
      && next <= k < |plan|
      && r.calls == plan[..k + 1]
      && SucceedFrom(plan, sdk, next, k)
      && r.status == sdk(plan[..k], plan[k])
      && r.status.TmrError?
    decreases |plan| - next
  {
    if next == |plan| then Completed(plan)
    else
      var status := sdk(plan[..next], plan[next]);
      if status.TmrError? then
        assert !CallOk(plan, sdk, next);
        Aborted(plan[..next + 1], status)
      else Execute(plan, sdk, next + 1)
  }

  /* ---------------------------------------------------------------------- */
  /* The whole program                                                      */
  /* ---------------------------------------------------------------------- */

  /** How a run ends: through `usage`, through `checkerr` after a failed
      call, or after `TMR_destroy` with `return 0`. */
  datatype Outcome =
    | UsageExit(reason: UsageReason)
    | SdkFailure(calls: seq<Step>, status: Status)
    | Finished(calls: seq<Step>)

  function ExitStatus(o: Outcome): int
  {
    if o.Finished? then 0 else 1
  }

  /** The SDK calls a run made, in order. */
  function CallsOf(o: Outcome): seq<Step>
  {
    match o
    case UsageExit(_) => []
    case SdkFailure(calls, _) => calls
    case Finished(calls) => calls
  }

  /** `main`. */
  function Program(argv: seq<string>, sdk: Sdk): Outcome
  {
    match ParseArgs(argv)
    case UsageError(reason) => UsageExit(reason)
    case Arguments(uri, mode) =>
      match Execute(Plan(uri, mode), sdk, 0)
      case Aborted(calls, status) => SdkFailure(calls, status)
      case Completed(calls) => Finished(calls + [DestroyReader])
  }

  /** Rejected arguments end the run before any SDK call, with status 1. */
  lemma UsageBeforeAnyCall(argv: seq<string>, sdk: Sdk)
    requires ParseArgs(argv).UsageError?
    ensures Program(argv, sdk).UsageExit?
    ensures CallsOf(Program(argv, sdk)) == [] && ExitStatus(Program(argv, sdk)) == 1
  {
  }

  /** Fail fast: a run that fails made the calls of the plan up to and
      including the failing one, every call before it succeeded, no later
      call was made, and the exit status is 1. */
  lemma FailFast(argv: seq<string>, sdk: Sdk)
    requires Program(argv, sdk).SdkFailure?
    ensures ParseArgs(argv).Arguments?
    ensures
      var plan := Plan(ParseArgs(argv).uri, ParseArgs(argv).mode);
      var calls := Program(argv, sdk).calls;
      var k := |calls| - 1;
      && 0 <= k < |plan|
      && calls == plan[..k + 1]
      && Succeed(plan, sdk, k)
      && Program(argv, sdk).status == sdk(plan[..k], plan[k])
      && Program(argv, sdk).status.TmrError?
    ensures ExitStatus(Program(argv, sdk)) == 1
  {
    var args := ParseArgs(argv);
    var r := Execute(Plan(args.uri, args.mode), sdk, 0);
    assert Program(argv, sdk) == SdkFailure(r.calls, r.status);
  }

  /** The exit status is 0 exactly when the arguments are accepted and every
      call of the plan succeeds; the run then made every call of the plan,
      in order, and destroyed the reader. */
  lemma SuccessIffAllCallsSucceed(argv: seq<string>, sdk: Sdk)
    ensures ExitStatus(Program(argv, sdk)) == 0 <==>
      ParseArgs(argv).Arguments? &&
      Succeed(Plan(ParseArgs(argv).uri, ParseArgs(argv).mode), sdk,
              |Plan(ParseArgs(argv).uri, ParseArgs(argv).mode)|)
    ensures Program(argv, sdk).Finished? ==>
      CallsOf(Program(argv, sdk)) ==
        Plan(ParseArgs(argv).uri, ParseArgs(argv).mode) + [DestroyReader]
  {
  }

  /** The disable path does nothing but clear the saved configuration. */
  lemma DisableOnlyClears(argv: seq<string>, sdk: Sdk, s: Step)
    requires |argv| >= 2 && ParseArgs(argv) == Arguments(argv[1], Disable)
    requires s in CallsOf(Program(argv, sdk))
    ensures s in {CreateReader(argv[1]), ConnectReader, InitUserConfig(ClearConfig),
                  SetUserConfig(ClearConfig), DestroyReader}
  {
    var plan := Plan(argv[1], Disable);
    var calls := CallsOf(Program(argv, sdk));
    CallsFollowPlan(argv, sdk);
    var i :| 0 <= i < |calls| && calls[i] == s;
    assert s == DestroyReader || s == plan[i];
  }

  /** The calls a run made: the whole plan and `TMR_destroy`, or a
      prefix of the plan whose calls all succeeded except the last. */
  lemma CallsFollowPlan(argv: seq<string>, sdk: Sdk)
    requires ParseArgs(argv).Arguments?
    ensures
      var plan := Plan(ParseArgs(argv).uri, ParseArgs(argv).mode);
      var calls := CallsOf(Program(argv, sdk));
      || (calls == plan + [DestroyReader] && Succeed(plan, sdk, |plan|))
      || (0 < |calls| <= |plan| && calls == plan[..|calls|] && Succeed(plan, sdk, |calls| - 1))
  {
  }

  /** A completed enable run made exactly the configuration calls, in the
      program's order. */
  lemma EnableOrder(argv: seq<string>, sdk: Sdk)
    requires |argv| >= 2 && ParseArgs(argv) == Arguments(argv[1], Enable)
    requires Program(argv, sdk).Finished?
    ensures CallsOf(Program(argv, sdk)) ==
      [CreateReader(argv[1]), ConnectReader] + EnableSteps + [DestroyReader]
  {
    SuccessIffAllCallsSucceed(argv, sdk);
  }

  /** Where the restore, save and commit calls sit in a plan. */
  lemma RestorePosition(uri: string, mode: Mode, i: nat)
    requires i < |Plan(uri, mode)| && Plan(uri, mode)[i] == SetUserConfig(RestoreConfig)
    ensures mode == Enable && i == 19
    ensures Plan(uri, mode)[15] == CommitReadPlan
    ensures Plan(uri, mode)[17] == SetUserConfig(SaveWithReadPlan)
  {
    var plan := Plan(uri, mode);
    if mode == Enable {
      assert plan[2..] == EnableSteps;
    }
  }

  /** The saved configuration is restored only after the read plan was
      committed and saved, both successfully. */
  lemma RestoreOnlyAfterSave(argv: seq<string>, sdk: Sdk, i: nat)
    requires ParseArgs(argv).Arguments?
    requires i < |CallsOf(Program(argv, sdk))|
    requires CallsOf(Program(argv, sdk))[i] == SetUserConfig(RestoreConfig)
    ensures ParseArgs(argv).mode == Enable && i == 19
    ensures
      var plan := Plan(ParseArgs(argv).uri, ParseArgs(argv).mode);
      && plan[15] == CommitReadPlan && plan[17] == SetUserConfig(SaveWithReadPlan)
      && sdk(plan[..15], plan[15]).TmrSuccess?
      && sdk(plan[..17], plan[17]).TmrSuccess?
  {
    var args := ParseArgs(argv);
    var plan := Plan(args.uri, args.mode);
    var calls := CallsOf(Program(argv, sdk));
    CallsFollowPlan(argv, sdk);
    assert i < |plan| && calls[i] == plan[i];
    RestorePosition(args.uri, args.mode, i);
    assert CallOk(plan, sdk, 15) && CallOk(plan, sdk, 17);
  }
}
