/**
 * The `TextToSpeech` session of pyttslib/tts.py: its engine tag, settings,
 * scratch directory and tracked list of temporary audio files, and what
 * construction, `speak`, `save_to_file`, the setters and the cleanups do to
 * them and to the disk.
 *
 * The engines, the players, the clock and the outcome of each unlink are not
 * visible to the program; they come in as parameters.
 */
module Tts {
  import opened Wrappers
  import opened Paths
  import opened Storage
  import opened Playback
  import opened Engines

  /** What the world does during one `speak` call. */
  datatype SpeakEnv = SpeakEnv(
    synthesisFails: bool,        // say/runAndWait, or building and saving the gTTS audio, raises
    timestamp: int,              // int(time.time() * 1000)
    windows: bool,               // platform.system() == 'Windows'
    outcome: Player -> Outcome,  // what each player does with the audio file
    deleteFails: seq<bool>,      // per attempt of _delete_audio_file
    cleanupFails: seq<bool>)     // per snapshot entry of _cleanup_temp_files

  /** The scratch file the Google engine speaks through. */
  function SpeakPath(dir: Path, env: SpeakEnv): Path
  {
    TempPath(dir, env.timestamp, ".mp3")
  }

  /** Whether the Google audio fails to reach the scratch file. */
  predicate GoogleSaveFails(s: Store, p: Path, env: SpeakEnv)
  {
    env.synthesisFails || p in s.dirs
  }

  /**
   * The disk and the tracked list after `speak(text)`. For Google the scratch
   * file is tracked, written, played and deleted, whatever the players did;
   * every non-empty call ends with `_cleanup_temp_files`.
   */
  function SpeakState(e: Engine, dir: Path, s: Store, text: string, env: SpeakEnv): Store
  {
    if text == [] then s
    else
      match e
      case Pyttsx3 => CleanupFiles(s, env.cleanupFails)
      case Google =>
        var p := SpeakPath(dir, env);
        var tracked := s.(tracked := s.tracked + [p]);
        if GoogleSaveFails(s, p, env) then CleanupFiles(tracked, env.cleanupFails)
        else CleanupFiles(Delete(tracked.(files := s.files + {p}), p, env.deleteFails), env.cleanupFails)
  }

  /** What `speak(text)` raises: a TTSError when synthesis or the save fails, for either engine. */
  function SpeakError(e: Engine, dir: Path, s: Store, text: string, env: SpeakEnv): Option<TtsError>
  {
    if text != [] && (env.synthesisFails || (e == Google && SpeakPath(dir, env) in s.dirs)) then
      Some(Failure(Synthesizing))
    else None
  }

  /** Empty text: `speak` returns at once, so not even the cleanup runs. */
  lemma SpeakEmptyText(e: Engine, dir: Path, s: Store, env: SpeakEnv)
    ensures SpeakState(e, dir, s, "", env) == s && SpeakError(e, dir, s, "", env) == None
  {
  }

  /**
   * Once the Google audio is saved, one successful deletion attempt removes
   * it from disk, even when every player failed: the early return after a
   * failed playback still runs the `finally` that deletes the file.
   */
  lemma SpeakDeletesUnplayedAudio(dir: Path, s: Store, text: string, env: SpeakEnv)
    requires text != [] && !GoogleSaveFails(s, SpeakPath(dir, env), env)
    requires exists j :: 0 <= j < Attempts && !Fails(env.deleteFails, j)
    ensures SpeakPath(dir, env) !in SpeakState(Google, dir, s, text, env).files
  {
    var p := SpeakPath(dir, env);
    var written := Store(s.files + {p}, s.dirs, s.tracked + [p]);
    assert p in written.tracked;
    DeleteRemovesIff(written, p, env.deleteFails);
    var d := Delete(written, p, env.deleteFails);
    CleanupPrefixFiles(d, d.tracked, env.cleanupFails, |d.tracked|);
  }

  /** What the disk ends up as does not depend on the platform or on what the players did. */
  lemma SpeakIgnoresPlayback(e: Engine, dir: Path, s: Store, text: string, env: SpeakEnv, windows: bool, outcome: Player -> Outcome)
    ensures SpeakState(e, dir, s, text, env.(windows := windows, outcome := outcome)) == SpeakState(e, dir, s, text, env)
  {
  }

  /**
   * When no unlink fails, a Google `speak` leaves no trace of its scratch
   * file: it is neither on disk nor tracked.
   */
  lemma SpeakLeavesNoScratchFile(dir: Path, s: Store, text: string, env: SpeakEnv)
    requires text != [] && Disjoint(s) && SpeakPath(dir, env) !in s.dirs
    requires NoFailures(env.cleanupFails)
    ensures var r := SpeakState(Google, dir, s, text, env);
      SpeakPath(dir, env) !in r.files && SpeakPath(dir, env) !in r.tracked
  {
    var p := SpeakPath(dir, env);
    var tracked := s.(tracked := s.tracked + [p]);
    var before :=
      if GoogleSaveFails(s, p, env) then tracked
      else Delete(tracked.(files := s.files + {p}), p, env.deleteFails);
    assert before.dirs == s.dirs;
    assert p in before.files ==> p in before.tracked;
    CleanupNoFailures(before, env.cleanupFails);
    CountIn(CleanupFiles(before, env.cleanupFails).tracked, p);
  }

  /** For pyttsx3, `speak` changes the disk only through the final cleanup. */
  lemma SpeakLocalOnlyCleans(dir: Path, s: Store, text: string, env: SpeakEnv)
    requires text != [] && Disjoint(s)
    ensures var r := SpeakState(Pyttsx3, dir, s, text, env);
      r.dirs == s.dirs && r.files <= s.files
      && forall q :: q in s.files && q !in s.tracked ==> q in r.files
  {
    CleanupFrame(s, env.cleanupFails);
  }

  /** Where `save_to_file` writes: pyttsx3 defaults the extension, Google writes the name as given. */
  function SaveDestination(e: Engine, outputFile: Path): Path
  {
    match e
    case Pyttsx3 => SaveTarget(outputFile)
    case Google => outputFile
  }

  class TextToSpeech {
    const engine: Engine
    const config: Config
    /** `temp_dir`: the scratch directory under the system temp root. */
    const tempDir: Path
    /** `engine_instance`. */
    var instance: Instance
    /** `_temp_files`: tracked scratch paths, in order, duplicates allowed. */
    var tempFiles: seq<Path>

    /** The engine tag and the kind of engine instance agree. */
    ghost predicate Valid()
      reads this
    {
      instance.Local? <==> engine == Pyttsx3
    }

    /** The disk together with this session's tracked list. */
    function State(fs: FileSystem): Store
      reads this, fs
    {
      Store(fs.files, fs.dirs, tempFiles)
    }

    constructor Init(engine: Engine, config: Config, tempDir: Path)
      ensures this.engine == engine && this.config == config && this.tempDir == tempDir
      ensures instance == InitialInstance(engine, config) && tempFiles == []
      ensures Valid()
    {
      this.engine := engine;
      this.config := config;
      this.tempDir := tempDir;
      instance := InitialInstance(engine, config);
      tempFiles := [];
    }

    /**
     * `TextToSpeech(engine, engine_config)`: the scratch directory is created
     * first if it does not exist, even when the engine name is then rejected.
     * `initFails` says whether starting the local engine raises.
     */
    static method New(name: string, engineConfig: Option<Config>, tempRoot: Path, fs: FileSystem, initFails: bool)
      returns (r: Result<TextToSpeech, TtsError>)
      modifies fs
      ensures fs.files == old(fs.files)
      ensures fs.dirs == if old(fs.Exists(TempDirOf(tempRoot))) then old(fs.dirs) else old(fs.dirs) + {TempDirOf(tempRoot)}
      ensures SelectEngine(name).Err? ==> r == Err(EngineNotFound(name))
      ensures SelectEngine(name) == Ok(Pyttsx3) && initFails ==> r == Err(Failure(Initializing))
      ensures SelectEngine(name).Ok? && !(SelectEngine(name) == Ok(Pyttsx3) && initFails) ==>
        r.Ok? && fresh(r.value) && r.value.Valid()
        && r.value.engine == SelectEngine(name).value && r.value.config == ConfigOf(engineConfig)
        && r.value.tempDir == TempDirOf(tempRoot)
        && r.value.instance == InitialInstance(SelectEngine(name).value, ConfigOf(engineConfig))
        && r.value.tempFiles == []
    {
      var dir := TempDirOf(tempRoot);
      if !fs.Exists(dir) {
        fs.MakeDirs(dir);
      }
      var selected := SelectEngine(name);
      if selected.Err? {
        return Err(selected.error);
      }
      if selected.value == Pyttsx3 && initFails {
        return Err(Failure(Initializing));
      }
      var t := new TextToSpeech.Init(selected.value, ConfigOf(engineConfig), dir);
      return Ok(t);
    }

    /** `_create_temp_file(suffix)`: names a scratch path and tracks it; no file is created. */
    method CreateTempFile(suffix: string, timestamp: int) returns (path: Path)
      modifies this
      ensures path == TempPath(tempDir, timestamp, suffix)
      ensures tempFiles == old(tempFiles) + [path]
      ensures instance == old(instance)
    {
      path := Join(tempDir, TempFilePrefix + IntToString(timestamp) + suffix);
      tempFiles := tempFiles + [path];
    }

    /**
     * `_delete_audio_file(path)`: up to three attempts; the first that
     * unlinks a tracked file also drops one tracked entry and stops.
     */
    method DeleteAudioFile(fs: FileSystem, path: Path, fails: seq<bool>)
      modifies this, fs
      ensures State(fs) == Delete(old(State(fs)), path, fails)
      ensures instance == old(instance)
    {
      ghost var s0 := State(fs);
      var attempt := 0;
      while attempt < Attempts
        invariant 0 <= attempt <= Attempts
        invariant State(fs) == s0 && instance == old(instance)
        invariant path in s0.files && path in s0.tracked ==> forall j :: 0 <= j < attempt ==> Fails(fails, j)
      {
        if fs.Exists(path) && path in tempFiles {
          var ok := fs.Unlink(path, Fails(fails, attempt));
          if ok {
            tempFiles := RemoveFirst(tempFiles, path);
            assert FirstSucceeding(fails) == attempt;
            return;
          }
        }
        attempt := attempt + 1;
      }
      assert path in s0.files && path in s0.tracked ==> FirstSucceeding(fails) == Attempts;
    }

    /** `_cleanup_temp_files()`: one pass over a copy of the tracked list. */
    method CleanupTempFiles(fs: FileSystem, fails: seq<bool>)
      modifies this, fs
      ensures State(fs) == CleanupFiles(old(State(fs)), fails)
      ensures instance == old(instance)
    {
      ghost var s0 := State(fs);
      var snapshot := tempFiles;
      for i := 0 to |snapshot|
        invariant State(fs) == CleanupPrefix(s0, snapshot, fails, i)
        invariant instance == old(instance)
      {
        var p := snapshot[i];
        if fs.Exists(p) {
          var ok := fs.Unlink(p, Fails(fails, i));
          if ok {
            tempFiles := RemoveFirst(tempFiles, p);
          }
        } else {
          tempFiles := RemoveFirst(tempFiles, p);
        }
      }
    }

    /**
     * `_cleanup_temp_folder()`: every entry listed in the scratch directory
     * that is a regular file is unlinked; `locked` holds those whose unlink
     * raises. An unlistable directory makes it do nothing.
     */
    method CleanupTempFolder(fs: FileSystem, locked: set<Path>)
      modifies fs
      ensures State(fs) == Sweep(old(State(fs)), tempDir, locked)
    {
      if tempDir !in fs.dirs {
        return;
      }
      ghost var files0 := fs.files;
      var entries := set q | q in fs.files + fs.dirs && DirectChild(tempDir, q);
      var todo := entries;
      while todo != {}
        invariant todo <= entries
        invariant fs.files == files0 - ((entries - todo) - locked)
        invariant fs.dirs == old(fs.dirs)
        decreases |todo|
      {
        var q :| q in todo;
        if fs.IsFile(q) {
          var _ := fs.Unlink(q, q in locked);
        }
        todo := todo - {q};
      }
      assert fs.files == files0 - (entries - locked);
      forall q
        ensures q in fs.files <==> q in files0 && (!DirectChild(tempDir, q) || q in locked)
      {
        assert q in entries <==> (q in files0 || q in fs.dirs) && DirectChild(tempDir, q);
      }
      assert fs.files == set q | q in files0 && (!DirectChild(tempDir, q) || q in locked);
    }

    /** `cleanup()`: the tracked files, then the scratch directory. */
    method Cleanup(fs: FileSystem, fails: seq<bool>, locked: set<Path>)
      modifies this, fs
      ensures State(fs) == CleanupAll(old(State(fs)), tempDir, fails, locked)
      ensures instance == old(instance)
    {
      CleanupTempFiles(fs, fails);
      CleanupTempFolder(fs, locked);
    }

    /**
     * `_play_audio_file(path)`: the platform's players in order, then, in the
     * `finally`, the deletion of the file, also when no player succeeded.
     */
    method PlayAudioFile(fs: FileSystem, path: Path, windows: bool, outcome: Player -> Outcome, deleteFails: seq<bool>)
      returns (played: bool)
      modifies this, fs
      ensures played <==> FirstSuccess(if windows then WindowsChain(path) else UnixChain(), outcome).Some?
      ensures State(fs) == Delete(old(State(fs)), path, deleteFails)
      ensures instance == old(instance)
    {
      var tried;
      if windows {
        played, tried := PlayWindows(path, outcome);
      } else {
        played, tried := PlayUnix(path, outcome);
      }
      DeleteAudioFile(fs, path, deleteFails);
    }

    /** `speak(text)`. */
    method Speak(fs: FileSystem, text: string, env: SpeakEnv) returns (err: Option<TtsError>)
      requires Valid()
      modifies this, fs
      ensures State(fs) == SpeakState(engine, tempDir, old(State(fs)), text, env)
      ensures err == SpeakError(engine, tempDir, old(State(fs)), text, env)
      ensures instance == old(instance) && Valid()
    {
      if text == [] {
        return None;
      }
      ghost var s0 := State(fs);
      err := None;
      match engine {
        case Pyttsx3 =>
          if env.synthesisFails {
            err := Some(Failure(Synthesizing));
          }
        case Google =>
          var p := CreateTempFile(".mp3", env.timestamp);
          assert p == SpeakPath(tempDir, env);
          ghost var tracked := s0.(tracked := s0.tracked + [p]);
          assert State(fs) == tracked;
          var saved := fs.Write(p, env.synthesisFails);
          if saved {
            assert State(fs) == tracked.(files := s0.files + {p});
            var _ := PlayAudioFile(fs, p, env.windows, env.outcome, env.deleteFails);
          } else {
            err := Some(Failure(Synthesizing));
          }
      }
      CleanupTempFiles(fs, env.cleanupFails);
    }

    /** `save_to_file(text, output_file)`; `writeFails` says whether the engine's save raises. */
    method SaveToFile(fs: FileSystem, text: string, outputFile: Path, writeFails: bool) returns (err: Option<TtsError>)
      requires Valid()
      modifies fs
      ensures fs.dirs == old(fs.dirs)
      ensures text == [] ==> err == None && fs.files == old(fs.files)
      ensures text != [] ==>
        var target := SaveDestination(engine, outputFile);
        (err == None <==> target !in old(fs.dirs) && !writeFails)
        && (err.Some? ==> err == Some(Failure(Saving)))
        && fs.files == (if err == None then old(fs.files) + {target} else old(fs.files))
    {
      if text == [] {
        return None;
      }
      var target := SaveDestination(engine, outputFile);
      var ok := fs.Write(target, writeFails);
      err := if ok then None else Some(Failure(Saving));
    }

    /** `set_rate(rate)`; `fails` says whether the local engine's setProperty raises. */
    method SetRate(rate: int, fails: bool) returns (err: Option<TtsError>)
      requires Valid()
      modifies this
      ensures err == (if engine == Pyttsx3 && fails then Some(Failure(SettingRate)) else None)
      ensures instance == if err.Some? then old(instance) else WithRate(old(instance), rate)
      ensures tempFiles == old(tempFiles) && Valid()
    {
      err := None;
      if engine == Pyttsx3 {
        if fails {
          return Some(Failure(SettingRate));
        }
        instance := instance.(rate := Some(Int(rate)));
      }
    }

    /** `set_volume(volume)`: clamped into [0, 1] for the local engine. */
    method SetVolume(volume: real, fails: bool) returns (err: Option<TtsError>)
      requires Valid()
      modifies this
      ensures err == (if engine == Pyttsx3 && fails then Some(Failure(SettingVolume)) else None)
      ensures instance == if err.Some? then old(instance) else WithVolume(old(instance), volume)
      ensures tempFiles == old(tempFiles) && Valid()
    {
      err := None;
      if engine == Pyttsx3 {
        var clamped := ClampVolume(volume);
        if fails {
          return Some(Failure(SettingVolume));
        }
        instance := instance.(volume := Some(Real(clamped)));
      }
    }

    /** `set_voice(voice_id)`: the local engine's voice, or Google's language. */
    method SetVoice(voiceId: string, fails: bool) returns (err: Option<TtsError>)
      requires Valid()
      modifies this
      ensures err == (if engine == Pyttsx3 && fails then Some(Failure(SettingVoice)) else None)
      ensures instance == if err.Some? then old(instance) else WithVoice(old(instance), voiceId)
      ensures tempFiles == old(tempFiles) && Valid()
    {
      err := None;
      match engine {
        case Pyttsx3 =>
          if fails {
            return Some(Failure(SettingVoice));
          }
          instance := instance.(voice := Some(Str(voiceId)));
        case Google =>
          instance := instance.(lang := Str(voiceId));
      }
    }
  }
}
