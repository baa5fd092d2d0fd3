/**
 * The pure configuration logic of `TextToSpeech` in pyttslib/tts.py: which
 * engine a name selects, what the engine instance starts with, what the
 * setters store, where `save_to_file` writes for the local engine, and the
 * fixed table of Google voices.
 */
module Engines {
  import opened Wrappers
  import opened Paths
  import TextUtils

  /** A configuration value; the source accepts any Python value there. */
  datatype Value = Str(s: string) | Int(i: int) | Real(r: real) | Bool(b: bool)

  type Config = map<string, Value>

  datatype Engine = Pyttsx3 | Google

  /** What was being done when an engine call raised, standing in for the message text. */
  datatype Stage = Initializing | Synthesizing | Saving | SettingRate | SettingVolume | SettingVoice

  datatype TtsError =
    | EngineNotFound(name: string)  // EngineNotFoundError, carrying the name as given
    | Failure(stage: Stage)         // TTSError

  /** The name `self.engine` is compared against for each engine. */
  function EngineName(e: Engine): string
  {
    match e
    case Pyttsx3 => "pyttsx3"
    case Google => "google"
  }

  /** Engine selection in `__init__`: the name is lower-cased, then matched. */
  function SelectEngine(name: string): (r: Result<Engine, TtsError>)
    ensures r.Ok? ==> Lower(name) == EngineName(r.value)
    ensures r.Err? ==> r.error == EngineNotFound(name)
  {
    if Lower(name) == "pyttsx3" then Ok(Pyttsx3)
    else if Lower(name) == "google" then Ok(Google)
    else Err(EngineNotFound(name))
  }

  /** A name is accepted exactly when it lower-cases to one of the two engine names. */
  lemma SelectEngineAccepts(name: string)
    ensures SelectEngine(name).Ok? <==> exists e: Engine :: Lower(name) == EngineName(e)
  {
    if Lower(name) == EngineName(Pyttsx3) {
    } else if Lower(name) == EngineName(Google) {
    } else {
      forall e: Engine
        ensures Lower(name) != EngineName(e)
      {
        match e
        case Pyttsx3 =>
        case Google =>
      }
    }
  }

  /** Each engine's own name selects it, in any mix of upper and lower case. */
  lemma SelectEngineByName(e: Engine, name: string)
    requires Lower(name) == EngineName(e)
    ensures SelectEngine(name) == Ok(e)
  {
  }

  /** Names that differ only in case select the same engine, or fail alike. */
  lemma SelectEngineCaseInsensitive(a: string, b: string)
    requires Lower(a) == Lower(b)
    ensures SelectEngine(a).Ok? == SelectEngine(b).Ok?
    ensures SelectEngine(a).Ok? ==> SelectEngine(a).value == SelectEngine(b).value
  {
  }

  lemma SelectEngineExamples()
    ensures SelectEngine("GoOgLe") == Ok(Google)
    ensures SelectEngine("PYTTSX3") == Ok(Pyttsx3)
    ensures SelectEngine("espeak") == Err(EngineNotFound("espeak"))
  {
    assert Lower("GoOgLe") == "google";
    assert Lower("PYTTSX3") == "pyttsx3";
    assert Lower("espeak") == "espeak";
  }

  /** `engine_config or {}`: a missing configuration is an empty one. */
  function ConfigOf(engineConfig: Option<Config>): Config
  {
    match engineConfig
    case None => map[]
    case Some(c) => c
  }

  /** `config.get(key, default)`. */
  function Get(config: Config, key: string, default: Value): Value
  {
    if key in config then config[key] else default
  }

  /** `config[key]` if present. */
  function Lookup(config: Config, key: string): Option<Value>
  {
    if key in config then Some(config[key]) else None
  }

  /**
   * `engine_instance`: for the local engine, the properties set on it since
   * `pyttsx3.init()` (None: the engine's own default); for Google, the
   * settings record handed to gTTS.
   */
  datatype Instance =
    | Local(rate: Option<Value>, volume: Option<Value>, voice: Option<Value>)
    | Remote(lang: Value, tld: Value, slow: Value)

  const DefaultLang: Value := Str("en")
  const DefaultTld: Value := Str("com")
  const DefaultSlow: Value := Bool(false)

  /** `_init_google_tts`: each key from the configuration, or its default. */
  function GoogleSettings(config: Config): (r: Instance)
    ensures r.Remote?
    ensures r.lang == if "lang" in config then config["lang"] else DefaultLang
    ensures r.tld == if "tld" in config then config["tld"] else DefaultTld
    ensures r.slow == if "slow" in config then config["slow"] else DefaultSlow
  {
    Remote(Get(config, "lang", DefaultLang), Get(config, "tld", DefaultTld), Get(config, "slow", DefaultSlow))
  }

  /** With no configuration Google speaks English from google.com at normal speed. */
  lemma GoogleDefaults(engineConfig: Option<Config>)
    requires engineConfig.None? || engineConfig == Some(map[])
    ensures GoogleSettings(ConfigOf(engineConfig)) == Remote(Str("en"), Str("com"), Bool(false))
  {
  }

  /** Keys other than the three settings make no difference. */
  lemma GoogleIgnoresOtherKeys(config: Config, key: string, v: Value)
    requires key != "lang" && key != "tld" && key != "slow"
    ensures GoogleSettings(config[key := v]) == GoogleSettings(config)
  {
  }

  /**
   * `_init_pyttsx3`: rate, volume and voice from the configuration are set on
   * the engine as given; the volume is not clamped here.
   */
  function LocalSettings(config: Config): Instance
  {
    Local(Lookup(config, "rate"), Lookup(config, "volume"), Lookup(config, "voice"))
  }

  /** Keys other than the three properties make no difference. */
  lemma LocalIgnoresOtherKeys(config: Config, key: string, v: Value)
    requires key != "rate" && key != "volume" && key != "voice"
    ensures LocalSettings(config[key := v]) == LocalSettings(config)
  {
  }

  /**
   * Each of the three properties is set exactly when the configuration has
   * it, to the configured value; a missing one keeps the engine's default.
   */
  lemma LocalSettingsAsGiven(config: Config)
    ensures var r := LocalSettings(config);
      r.Local?
      && (r.rate.Some? <==> "rate" in config) && ("rate" in config ==> r.rate.value == config["rate"])
      && (r.volume.Some? <==> "volume" in config) && ("volume" in config ==> r.volume.value == config["volume"])
      && (r.voice.Some? <==> "voice" in config) && ("voice" in config ==> r.voice.value == config["voice"])
  {
  }

  /** Any configured volume, in range or not, reaches the engine as given. */
  lemma ConfigVolumeAsGiven(config: Config, v: real)
    ensures InitialInstance(Pyttsx3, config["volume" := Real(v)]).volume == Some(Real(v))
  {
  }

  /** The engine instance right after construction. */
  function InitialInstance(e: Engine, config: Config): (r: Instance)
    ensures r.Local? <==> e == Pyttsx3
  {
    match e
    case Pyttsx3 => LocalSettings(config)
    case Google => GoogleSettings(config)
  }

  /** No configuration at all and an empty one set up either engine the same way. */
  lemma MissingConfigIsEmpty(e: Engine)
    ensures InitialInstance(e, ConfigOf(None)) == InitialInstance(e, ConfigOf(Some(map[])))
  {
  }

  /** A volume given in the configuration reaches the engine unclamped. */
  lemma ConfigVolumeUnclamped()
    ensures InitialInstance(Pyttsx3, map["volume" := Real(1.7)]).volume == Some(Real(1.7))
  {
  }

  /** `max(0.0, min(1.0, v))`. */
  function ClampVolume(v: real): (r: real)
    ensures 0.0 <= r <= 1.0
    ensures 0.0 <= v <= 1.0 ==> r == v
    ensures v < 0.0 ==> r == 0.0
    ensures v > 1.0 ==> r == 1.0
  {
    if 1.0 < v then 1.0 else if v < 0.0 then 0.0 else v
  }

  /** Clamping twice is clamping once, and clamping keeps the order of volumes. */
  lemma ClampVolumeIdempotentMonotone(a: real, b: real)
    ensures ClampVolume(ClampVolume(a)) == ClampVolume(a)
    ensures a <= b ==> ClampVolume(a) <= ClampVolume(b)
  {
  }

  lemma ClampVolumeExamples()
    ensures ClampVolume(-0.5) == 0.0 && ClampVolume(1.7) == 1.0 && ClampVolume(0.25) == 0.25
  {
  }

  /** `set_rate`: the local engine gets the rate; Google ignores it. */
  function WithRate(inst: Instance, rate: int): (r: Instance)
    ensures inst.Remote? ==> r == inst
    ensures inst.Local? ==> r == inst.(rate := Some(Int(rate)))
  {
    match inst
    case Local(_, volume, voice) => Local(Some(Int(rate)), volume, voice)
    case Remote(_, _, _) => inst
  }

  /** `set_volume`: the local engine gets the clamped volume; Google ignores it. */
  function WithVolume(inst: Instance, volume: real): (r: Instance)
    ensures inst.Remote? ==> r == inst
    ensures inst.Local? ==> r.Local? && r.rate == inst.rate && r.voice == inst.voice
    ensures inst.Local? ==> r.volume.Some? && r.volume.value.Real? && 0.0 <= r.volume.value.r <= 1.0
  {
    match inst
    case Local(rate, _, voice) => Local(rate, Some(Real(ClampVolume(volume))), voice)
    case Remote(_, _, _) => inst
  }

  /** Any volume at all leaves the local engine with a volume in [0, 1], the given one when it is in range. */
  lemma WithVolumeStoresClamped(inst: Instance, volume: real)
    requires inst.Local?
    ensures WithVolume(inst, volume).volume == Some(Real(ClampVolume(volume)))
    ensures 0.0 <= volume <= 1.0 ==> WithVolume(inst, volume).volume == Some(Real(volume))
  {
  }

  /** `set_voice`: the local engine gets the voice id; for Google it becomes the language. */
  function WithVoice(inst: Instance, voiceId: string): (r: Instance)
    ensures r.Local? == inst.Local?
    ensures inst.Local? ==> r.rate == inst.rate && r.volume == inst.volume && r.voice == Some(Str(voiceId))
    ensures inst.Remote? ==> r.lang == Str(voiceId) && r.tld == inst.tld && r.slow == inst.slow
  {
    match inst
    case Local(rate, volume, _) => Local(rate, volume, Some(Str(voiceId)))
    case Remote(_, tld, slow) => Remote(Str(voiceId), tld, slow)
  }

  /** The setters touch different properties, so they commute. */
  lemma SettersCommute(inst: Instance, rate: int, volume: real, voiceId: string)
    ensures WithRate(WithVolume(inst, volume), rate) == WithVolume(WithRate(inst, rate), volume)
    ensures WithRate(WithVoice(inst, voiceId), rate) == WithVoice(WithRate(inst, rate), voiceId)
    ensures WithVolume(WithVoice(inst, voiceId), volume) == WithVoice(WithVolume(inst, volume), voiceId)
  {
  }

  /** Setting the Google language twice keeps only the last, and the other settings stay. */
  lemma WithVoiceLastWins(inst: Instance, a: string, b: string)
    ensures WithVoice(WithVoice(inst, a), b) == WithVoice(inst, b)
  {
  }

  /** Where the local engine writes in `save_to_file`: ".wav" is added when there is no extension. */
  function SaveTarget(outputFile: Path): (r: Path)
    ensures SplitExt(outputFile).1 != [] ==> r == outputFile
    ensures SplitExt(outputFile).1 == [] ==> r == outputFile + ".wav"
  {
    var (_, ext) := SplitExt(outputFile);
    if ext == [] then outputFile + ".wav" else outputFile
  }

  /**
   * A file name without an extension gets exactly ".wav" as its extension,
   * which is a supported format, and the rest of the name is unchanged.
   */
  lemma SaveTargetAddsWav(outputFile: Path)
    requires NamedStem(outputFile) && SplitExt(outputFile).1 == []
    ensures SplitExt(SaveTarget(outputFile)) == (outputFile, ".wav")
    ensures TextUtils.IsSupportedAudioFormat(SaveTarget(outputFile))
  {
    SplitExtAt(outputFile, ".wav");
    assert Lower(".wav") == ".wav";
  }

  /** For a name with a named final component, defaulting the extension twice is defaulting it once. */
  lemma SaveTargetIdempotent(outputFile: Path)
    requires NamedStem(outputFile)
    ensures SaveTarget(SaveTarget(outputFile)) == SaveTarget(outputFile)
  {
    if SplitExt(outputFile).1 == [] {
      SplitExtAt(outputFile, ".wav");
    }
  }

  /** A path ending in a separator gets a hidden file ".wav" inside that directory. */
  lemma SaveTargetDirectory(dir: Path)
    ensures SaveTarget(dir + "/") == dir + "/.wav"
  {
    var p := dir + "/";
    assert LastIndex(p, '/') == |p| - 1;
    assert !NamedStem(p);
    SplitExtUnnamed(p);
  }

  datatype Voice = Voice(id: string, name: string)

  /** The Google branch of `list_voices`: a fixed table of language codes. */
  function GoogleVoices(): (r: seq<Voice>)
    ensures |r| == 10
  {
    [ Voice("en", "English"), Voice("fr", "French"), Voice("es", "Spanish"),
      Voice("de", "German"), Voice("it", "Italian"), Voice("pt", "Portuguese"),
      Voice("ru", "Russian"), Voice("ja", "Japanese"), Voice("ko", "Korean"),
      Voice("zh", "Chinese") ]
  }

  /** The voice ids are two lower-case letters each and no two are equal; English comes first. */
  lemma GoogleVoiceTable()
    ensures forall i :: 0 <= i < |GoogleVoices()| ==>
      |GoogleVoices()[i].id| == 2 && Lower(GoogleVoices()[i].id) == GoogleVoices()[i].id
    ensures forall i, j :: 0 <= i < j < |GoogleVoices()| ==> GoogleVoices()[i].id != GoogleVoices()[j].id
    ensures Str(GoogleVoices()[0].id) == DefaultLang
  {
    var v := GoogleVoices();
    forall i | 0 <= i < |v|
      ensures |v[i].id| == 2 && Lower(v[i].id) == v[i].id
    {
      assert 'a' <= v[i].id[0] <= 'z' && 'a' <= v[i].id[1] <= 'z';
    }
  }

  /** Picking a listed Google voice sets the language to its id. */
  lemma ListedVoiceSetsLang(config: Config, i: nat)
    requires i < |GoogleVoices()|
    ensures WithVoice(GoogleSettings(config), GoogleVoices()[i].id).lang == Str(GoogleVoices()[i].id)
  {
  }
}
