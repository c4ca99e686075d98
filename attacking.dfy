/**
 * The attacking subsystem: configuration validation, initialisation gating
 * and the precomputed schedule of attack-frame start times.
 */
module Attacking {
  import opened Common

  /**
   * The seven configuration entries the subsystem reads; None stands for a
   * JSON entry that is null (absent).
   */
  datatype AttackConfig = AttackConfig(
    txFileName: Option<string>,            // AttackSubsystemSettings.tx_file_name
    enabled: Option<bool>,                 // AttackSubsystemSettings.enabled
    numAttackFrames: Option<nat>,          // AttackSubsystemSettings.num_attack_frames
    attackStartFrame: Option<nat>,         // AttackSubsystemSettings.attack_start_frame
    estimatedFramePeriodicityMs: Option<real>, // AttackSubsystemSettings.estimated_frame_periodicity_ms
    txSpb: Option<real>,                   // USRPSettings.TX.spb
    rxOffsetUs: Option<real>)              // USRPSettings.RX.offset_us

  predicate AllPresent(cfg: AttackConfig)
  {
    && cfg.txFileName.Some? && cfg.enabled.Some? && cfg.numAttackFrames.Some?
    && cfg.attackStartFrame.Some? && cfg.estimatedFramePeriodicityMs.Some?
    && cfg.txSpb.Some? && cfg.rxOffsetUs.Some?
  }

  const MsgTxFileName := "AttackSubsystem::check_config: no tx_file_name in JSON"
  const MsgEnabled := "AttackSubsystem::check_config: no enabled in JSON"
  const MsgNumAttackFrames := "AttackSubsystem::check_config: no num_attack_frames in JSON"
  const MsgAttackStartFrame := "AttackSubsystem::check_config: no attack_start_frame in JSON"
  const MsgFramePeriodicity := "AttackSubsystem::check_config: no estimated_frame_periodicity_ms in JSON"
  // the source logs this same text for a missing USRPSettings.RX.offset_us
  const MsgSpbOrOffset := "AttackSubsystem::check_config: no samples per buffer for Tx in JSON"

  function Note(missing: bool, msg: string): seq<string>
  {
    if missing then [msg] else []
  }

  /** The messages check_config writes to the error stream, in order. */
  function MissingFieldMessages(cfg: AttackConfig): (msgs: seq<string>)
    ensures msgs == [] <==> AllPresent(cfg)
    ensures |msgs| <= 7
  {
    Note(cfg.txFileName.None?, MsgTxFileName)
    + Note(cfg.enabled.None?, MsgEnabled)
    + Note(cfg.numAttackFrames.None?, MsgNumAttackFrames)
    + Note(cfg.attackStartFrame.None?, MsgAttackStartFrame)
    + Note(cfg.estimatedFramePeriodicityMs.None?, MsgFramePeriodicity)
    + Note(cfg.txSpb.None?, MsgSpbOrOffset)
    + Note(cfg.rxOffsetUs.None?, MsgSpbOrOffset)
  }

  /** Start time (s) of attack frame i: the corrected start plus i periods. */
  function FrameStartTime(attackStartTimeMs: real, framePeriodicityMs: real, i: nat): real
  {
    attackStartTimeMs * 0.001 + (framePeriodicityMs * 0.001) * (i as real)
  }

  /** Consecutive attack frames are one period apart, so the schedule increases when the period is positive. */
  lemma ScheduleSpacing(times: seq<real>, attackStartTimeMs: real, framePeriodicityMs: real)
    requires forall i :: 0 <= i < |times| ==> times[i] == FrameStartTime(attackStartTimeMs, framePeriodicityMs, i)
    ensures forall i :: 0 <= i < |times| - 1 ==> times[i + 1] - times[i] == framePeriodicityMs * 0.001
    ensures framePeriodicityMs > 0.0 ==> forall i, j :: 0 <= i < j < |times| ==> times[i] < times[j]
  {
    forall i | 0 <= i < |times| - 1
      ensures times[i + 1] - times[i] == framePeriodicityMs * 0.001
    {
      assert ((i + 1) as real) == (i as real) + 1.0;
    }
    if framePeriodicityMs > 0.0 {
      forall i, j | 0 <= i < j < |times|
        ensures times[i] < times[j]
      {
        var p := framePeriodicityMs * 0.001;
        assert times[j] - times[i] == p * ((j - i) as real);
        assert p * ((j - i) as real) > 0.0;
      }
    }
  }

  class AttackingSubsystem {
    var enabled: bool
    var config: AttackConfig
    // whether initialize_attack_subsystem_parameters ran (the members stay unset otherwise)
    var parametersInitialized: bool
    // whether init_attack_signal_buffer loaded the attack signal from its file
    var attackSignalLoaded: bool
    var attackStartTimeMs: real
    var streamStartOffsetUs: real
    var frameStartTimes: seq<real>
    var numAttackFrames: nat
    var attackStartFrame: nat
    var framePeriodicityMs: real
    var samplesPerBuffer: real
    var attackSignalFile: string

    /** Parameters mirror the configuration once initialised. */
    ghost predicate Configured()
      reads this
    {
      && parametersInitialized && AllPresent(config)
      && attackSignalFile == config.txFileName.value && enabled == config.enabled.value
      && numAttackFrames == config.numAttackFrames.value && attackStartFrame == config.attackStartFrame.value
      && framePeriodicityMs == config.estimatedFramePeriodicityMs.value
      && streamStartOffsetUs == config.rxOffsetUs.value && samplesPerBuffer == config.txSpb.value
    }

    /** Initialisation runs only on a complete configuration; the attack signal loads only when also enabled. */
    constructor (configData: AttackConfig)
      ensures config == configData
      ensures parametersInitialized == AllPresent(configData) && (parametersInitialized ==> Configured())
      ensures attackSignalLoaded == (AllPresent(configData) && configData.enabled.value)
      ensures frameStartTimes == []
    {
      config := configData;
      enabled, parametersInitialized, attackSignalLoaded := false, false, false;
      attackStartTimeMs, streamStartOffsetUs, frameStartTimes := 0.0, 0.0, [];
      numAttackFrames, attackStartFrame, framePeriodicityMs := 0, 0, 0.0;
      samplesPerBuffer, attackSignalFile := 0.0, "";
      new;
      var ok, _ := CheckConfig();
      if ok {
        InitializeAttackSubsystemParameters();
        if enabled {
          attackSignalLoaded := true;
        }
      }
    }

    /**
     * check_config: inspects every entry (no short-circuit), logging one
     * message per missing entry, and passes iff none is missing.
     */
    method CheckConfig() returns (configGood: bool, log: seq<string>)
      ensures configGood <==> AllPresent(config)
      ensures log == MissingFieldMessages(config)
    {
      var c := config;
      configGood, log := true, [];
      configGood, log := NoteMissing(configGood, log, c.txFileName.None?, MsgTxFileName);
      configGood, log := NoteMissing(configGood, log, c.enabled.None?, MsgEnabled);
      configGood, log := NoteMissing(configGood, log, c.numAttackFrames.None?, MsgNumAttackFrames);
      configGood, log := NoteMissing(configGood, log, c.attackStartFrame.None?, MsgAttackStartFrame);
      configGood, log := NoteMissing(configGood, log, c.estimatedFramePeriodicityMs.None?, MsgFramePeriodicity);
      configGood, log := NoteMissing(configGood, log, c.txSpb.None?, MsgSpbOrOffset);
      configGood, log := NoteMissing(configGood, log, c.rxOffsetUs.None?, MsgSpbOrOffset);
      assert [] + Note(c.txFileName.None?, MsgTxFileName) == Note(c.txFileName.None?, MsgTxFileName);
    }

    method InitializeAttackSubsystemParameters()
      requires AllPresent(config)
      modifies this
      ensures config == old(config) && attackSignalLoaded == old(attackSignalLoaded)
      ensures frameStartTimes == old(frameStartTimes) && Configured()
    {
      attackSignalFile := config.txFileName.value;
      enabled := config.enabled.value;
      numAttackFrames := config.numAttackFrames.value;
      attackStartFrame := config.attackStartFrame.value;
      framePeriodicityMs := config.estimatedFramePeriodicityMs.value;
      streamStartOffsetUs := config.rxOffsetUs.value;
      samplesPerBuffer := config.txSpb.value;
      parametersInitialized := true;
    }

    /**
     * compute_frame_start_times: corrects the desired start by the Tx/Rx
     * stream offset (us to ms) and replaces the schedule by num_attack_frames
     * start times (s), one frame period apart.
     */
    method ComputeFrameStartTimes(desiredAttackStartTimeMs: real)
      requires Configured()
      modifies this`attackStartTimeMs, this`frameStartTimes
      ensures attackStartTimeMs == desiredAttackStartTimeMs - streamStartOffsetUs * 0.001
      ensures |frameStartTimes| == numAttackFrames
      ensures forall i :: 0 <= i < numAttackFrames ==>
        frameStartTimes[i] == FrameStartTime(attackStartTimeMs, framePeriodicityMs, i)
    {
      attackStartTimeMs := desiredAttackStartTimeMs - streamStartOffsetUs * 0.001;
      var times := new real[numAttackFrames];
      for i := 0 to numAttackFrames
        modifies times
        invariant forall k :: 0 <= k < i ==> times[k] == FrameStartTime(attackStartTimeMs, framePeriodicityMs, k)
      {
        times[i] := attackStartTimeMs * 0.001 + (framePeriodicityMs * 0.001) * (i as real);
      }
      frameStartTimes := times[..];
    }
  }

  /** One check of check_config: a missing entry logs its message and fails the check. */
  method NoteMissing(good: bool, log: seq<string>, missing: bool, msg: string) returns (good': bool, log': seq<string>)
    ensures good' == (good && !missing)
    ensures log' == log + Note(missing, msg)
  {
    good', log' := good, log;
    if missing {
      log' := log' + [msg];
      good' := false;
    }
  }
}
