/** The shared tuning object that API handlers change and the live loop reads
    (backend/rf/control.py).  All calls run on one event loop, so a call is atomic. */
module RfControl {
  import opened Prelude

  /** Everything a decoder command is built from. */
  datatype Tuning = Tuning(
    rfBackend: string,
    input: string,
    frequency: Option<string>,
    sdrDriver: string,
    sdrDeviceArgs: string,
    gain: real,
    ppm: int,
    bandwidthKhz: int)

  datatype Config = Config(tuning: Tuning, liveEnabled: bool)

  /** The body of a tune request; None leaves a field as it is. */
  datatype TuneRequest = TuneRequest(
    rfBackend: Option<string>,
    input: Option<string>,
    frequency: Option<string>,
    sdrDriver: Option<string>,
    sdrDeviceArgs: Option<string>,
    gain: Option<real>,
    ppm: Option<int>,
    bandwidthKhz: Option<int>)

  datatype TuneError = BadBackend | BadFrequency | BadBandwidth | FrequencyRequired

  /** The fields after a request, before any check. */
  function Merge(t: Tuning, req: TuneRequest, frequency: Option<string>): Tuning {
    Tuning(
      req.rfBackend.Or(t.rfBackend),
      req.input.Or(t.input),
      if req.frequency.Some? then frequency else t.frequency,
      req.sdrDriver.Or(t.sdrDriver),
      req.sdrDeviceArgs.Or(t.sdrDeviceArgs),
      req.gain.Or(t.gain),
      req.ppm.Or(t.ppm),
      req.bandwidthKhz.Or(t.bandwidthKhz))
  }

  const NO_REQUEST := TuneRequest(None, None, None, None, None, None, None, None)

  function RequestOf(t: Tuning): TuneRequest {
    TuneRequest(Some(t.rfBackend), Some(t.input), t.frequency, Some(t.sdrDriver), Some(t.sdrDeviceArgs),
                Some(t.gain), Some(t.ppm), Some(t.bandwidthKhz))
  }

  /** `second` where it names a field, `first` elsewhere. */
  function Combined(first: TuneRequest, second: TuneRequest): TuneRequest {
    TuneRequest(
      Either(second.rfBackend, first.rfBackend), Either(second.input, first.input),
      Either(second.frequency, first.frequency), Either(second.sdrDriver, first.sdrDriver),
      Either(second.sdrDeviceArgs, first.sdrDeviceArgs), Either(second.gain, first.gain),
      Either(second.ppm, first.ppm), Either(second.bandwidthKhz, first.bandwidthKhz))
  }

  function Either<T>(a: Option<T>, b: Option<T>): Option<T> {
    if a.Some? then a else b
  }

  /** A request that names nothing changes nothing, one that names everything leaves nothing of the old
      tuning, and two requests in a row are one in which the later fields win. */
  lemma RequestsCompose(t: Tuning, u: Tuning, first: TuneRequest, second: TuneRequest, f: Option<string>, g: Option<string>)
    requires u.frequency.Some?
    ensures Merge(t, NO_REQUEST, f) == t
    ensures Merge(t, RequestOf(u), u.frequency) == u
    ensures Merge(Merge(t, first, f), second, g)
            == Merge(t, Combined(first, second), if second.frequency.Some? then g else f)
  {
  }

  /** A pause or resume request: config and toggle event after it. */
  function Toggled(c: Config, event: bool, enabled: bool): (Config, bool) {
    if c.liveEnabled != enabled then (c.(liveEnabled := enabled), true) else (c, event)
  }

  predicate HasFrequency(t: Tuning) {
    t.frequency.Some? && t.frequency.value != ""
  }

  /** A tuning a command can be built from: the soapy input string needs a frequency. */
  predicate Buildable(t: Tuning) {
    && t.rfBackend in {"pulse", "soapy"}
    && (t.rfBackend == "soapy" ==> HasFrequency(t))
  }

  /** When a request is refused.  `frequency` is what normalising the requested text gives. */
  predicate Acceptable(t: Tuning, req: TuneRequest, frequency: Option<string>) {
    && (req.rfBackend.Some? ==> req.rfBackend.value in {"pulse", "soapy"})
    && (req.frequency.Some? ==> frequency.Some?)
    && (req.bandwidthKhz.Some? ==> 0 < req.bandwidthKhz.value)
    && (Merge(t, req, frequency).rfBackend == "soapy" ==> HasFrequency(Merge(t, req, frequency)))
  }

  class RfController {
    var config: Config
    var retuneEvent: bool
    var liveToggleEvent: bool
    var lastError: Option<string>
    /** Frequency text to its canonical form; None stands for a ValueError. */
    const normalize: string -> Option<string>

    constructor (config: Config, normalize: string -> Option<string>)
      ensures this.config == config && this.normalize == normalize
      ensures !retuneEvent && !liveToggleEvent && lastError == None
    {
      this.config := config;
      this.normalize := normalize;
      retuneEvent, liveToggleEvent, lastError := false, false, None;
    }

    ghost function Normalized(req: TuneRequest): Option<string> {
      if req.frequency.Some? then normalize(req.frequency.value) else None
    }

    /** A refused request changes nothing at all; an accepted one replaces the tuning,
        keeps `liveEnabled`, and sets the retune event even when saving to disk fails. */
    method SetTuning(req: TuneRequest, persistError: Option<string>) returns (r: Result<Config, TuneError>)
      modifies this
      ensures r.Ok? <==> Acceptable(old(config.tuning), req, Normalized(req))
      ensures r.Err? ==> config == old(config) && retuneEvent == old(retuneEvent) && lastError == old(lastError)
      ensures r.Ok? ==>
                && config == Config(Merge(old(config.tuning), req, Normalized(req)), old(config.liveEnabled))
                && retuneEvent
                && lastError == (if persistError.Some? then persistError else old(lastError))
      ensures liveToggleEvent == old(liveToggleEvent)
      ensures r.Ok? ==> r.value == config
    {
      var wanted := config.tuning;
      if req.rfBackend.Some? {
        if req.rfBackend.value != "pulse" && req.rfBackend.value != "soapy" {
          return Err(BadBackend);
        }
        wanted := wanted.(rfBackend := req.rfBackend.value);
      }
      wanted := wanted.(input := req.input.Or(wanted.input));
      if req.frequency.Some? {
        var canonical := normalize(req.frequency.value);
        if canonical.None? {
          return Err(BadFrequency);
        }
        wanted := wanted.(frequency := canonical);
      }
      wanted := wanted.(sdrDriver := req.sdrDriver.Or(wanted.sdrDriver),
                        sdrDeviceArgs := req.sdrDeviceArgs.Or(wanted.sdrDeviceArgs),
                        gain := req.gain.Or(wanted.gain),
                        ppm := req.ppm.Or(wanted.ppm));
      if req.bandwidthKhz.Some? {
        if req.bandwidthKhz.value <= 0 {
          return Err(BadBandwidth);
        }
        wanted := wanted.(bandwidthKhz := req.bandwidthKhz.value);
      }
      assert wanted == Merge(config.tuning, req, Normalized(req));
      if wanted.rfBackend == "soapy" && (wanted.frequency.None? || wanted.frequency.value == "") {
        return Err(FrequencyRequired);
      }
      config := config.(tuning := wanted);
      Persist(persistError);
      retuneEvent := true;
      return Ok(config);
    }

    /** Only a change of value wakes the supervisor. */
    method SetLiveEnabled(enabled: bool, persistError: Option<string>)
      modifies this
      ensures config == old(config).(liveEnabled := enabled)
      ensures liveToggleEvent == (old(liveToggleEvent) || old(config.liveEnabled) != enabled)
      ensures (config, liveToggleEvent) == Toggled(old(config), old(liveToggleEvent), enabled)
      ensures retuneEvent == old(retuneEvent)
      ensures lastError == if old(config.liveEnabled) != enabled && persistError.Some? then persistError else old(lastError)
    {
      if config.liveEnabled != enabled {
        config := config.(liveEnabled := enabled);
        Persist(persistError);
        liveToggleEvent := true;
      }
    }

    method Persist(persistError: Option<string>)
      modifies this`lastError
      ensures lastError == (if persistError.Some? then persistError else old(lastError))
    {
      if persistError.Some? {
        lastError := persistError;
      }
    }
  }

  /** No accepted request can leave a tuning whose command cannot be built. */
  lemma AcceptedStaysBuildable(t: Tuning, req: TuneRequest, frequency: Option<string>)
    requires Buildable(t)
    ensures Acceptable(t, req, frequency) ==> Buildable(Merge(t, req, frequency))
    ensures Buildable(Merge(t, req, frequency)) && (req.frequency.Some? ==> frequency.Some?)
            && (req.bandwidthKhz.Some? ==> 0 < req.bandwidthKhz.value)
            ==> Acceptable(t, req, frequency)
  {
  }
}
