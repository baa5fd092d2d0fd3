/**
 * The playback fallbacks of `_play_audio_file_windows` and
 * `_play_audio_file_unix` in pyttslib/tts.py: an ordered list of players,
 * tried one after the other until the first one succeeds. What a player does
 * (a library call or an external process) is opaque; its outcome comes in as
 * an input.
 */
module Playback {
  import opened Wrappers
  import opened Paths

  datatype Player =
    | WinSound     // winsound.PlaySound, WAV only
    | SoundPlayer  // PowerShell Media.SoundPlayer
    | MediaPlayer  // PowerShell System.Windows.Media.MediaPlayer, with a timeout
    | PlaySound    // playsound.playsound
    | Afplay | Aplay | Mpg123 | Mpg321 | Sox

  /** What one attempt did: it raised, or it ran to the end with an exit code. */
  datatype Outcome = Raised | Completed(code: int)

  /**
   * Whether an attempt counts as a success. Library calls and the
   * MediaPlayer command succeed whenever they do not raise; SoundPlayer needs
   * exit code 0; the command-line players run with `check=True`, so a
   * non-zero exit code raises.
   */
  predicate Succeeds(pl: Player, o: Outcome)
  {
    match o
    case Raised => false
    case Completed(code) => pl == WinSound || pl == MediaPlayer || pl == PlaySound || code == 0
  }

  /** The Windows order; winsound is only tried for a path ending in ".wav", in any case. */
  function WindowsChain(path: Path): seq<Player>
  {
    if EndsWith(Lower(path), ".wav") then [WinSound, SoundPlayer, MediaPlayer, PlaySound]
    else [SoundPlayer, MediaPlayer, PlaySound]
  }

  /** The command-line players of the Unix fallback, in order. */
  const CommandPlayers: seq<Player> := [Afplay, Aplay, Mpg123, Mpg321, Sox]

  /** The Unix order: playsound first, then the command-line players. */
  function UnixChain(): seq<Player>
  {
    [PlaySound] + CommandPlayers
  }

  /** Position of the first player of `chain` that succeeds, if any. */
  function FirstSuccess(chain: seq<Player>, outcome: Player -> Outcome): (r: Option<nat>)
    ensures r.Some? ==> r.value < |chain| && Succeeds(chain[r.value], outcome(chain[r.value]))
    ensures r.Some? ==> forall j :: 0 <= j < r.value ==> !Succeeds(chain[j], outcome(chain[j]))
    ensures r.None? <==> forall j :: 0 <= j < |chain| ==> !Succeeds(chain[j], outcome(chain[j]))
    decreases |chain|
  {
    if chain == [] then None
    else if Succeeds(chain[0], outcome(chain[0])) then Some(0)
    else
      match FirstSuccess(chain[1..], outcome)
      case None => None
      case Some(k) => Some(k + 1)
  }

  /** The players actually started: up to and including the first success, or all of them. */
  function Tried(chain: seq<Player>, outcome: Player -> Outcome): (r: seq<Player>)
    ensures |r| <= |chain| && r == chain[..|r|]
  {
    match FirstSuccess(chain, outcome)
    case None => chain
    case Some(k) => chain[..k + 1]
  }

  /** When the first success of `chain` is at `i`, exactly the first `i + 1` players are tried. */
  lemma TriedUpTo(chain: seq<Player>, outcome: Player -> Outcome, i: nat)
    requires i < |chain| && Succeeds(chain[i], outcome(chain[i]))
    requires forall j :: 0 <= j < i ==> !Succeeds(chain[j], outcome(chain[j]))
    ensures FirstSuccess(chain, outcome) == Some(i)
    ensures Tried(chain, outcome) == chain[..i + 1]
  {
    var r := FirstSuccess(chain, outcome);
    assert r.Some?;
    assert !(r.value < i);
    assert !(r.value > i);
  }

  /** When no player succeeds, all of them are tried. */
  lemma TriedAll(chain: seq<Player>, outcome: Player -> Outcome)
    requires forall j :: 0 <= j < |chain| ==> !Succeeds(chain[j], outcome(chain[j]))
    ensures FirstSuccess(chain, outcome) == None
    ensures Tried(chain, outcome) == chain
  {
  }

  /**
   * `_play_audio_file_windows`: winsound (WAV only), SoundPlayer,
   * MediaPlayer, playsound, stopping at the first success.
   */
  method PlayWindows(path: Path, outcome: Player -> Outcome) returns (ok: bool, tried: seq<Player>)
    ensures ok <==> FirstSuccess(WindowsChain(path), outcome).Some?
    ensures tried == Tried(WindowsChain(path), outcome)
  {
    var wav := EndsWith(Lower(path), ".wav");
    ghost var c := WindowsChain(path);
    ghost var k: nat := if wav then 1 else 0;
    assert wav ==> c[0] == WinSound;
    assert c[k] == SoundPlayer && c[k + 1] == MediaPlayer && c[k + 2] == PlaySound && |c| == k + 3;
    tried := [];
    if wav {
      tried := [WinSound];
      if Succeeds(WinSound, outcome(WinSound)) {
        TriedUpTo(c, outcome, 0);
        return true, tried;
      }
    }
    assert tried == c[..k];
    tried := tried + [SoundPlayer];
    if Succeeds(SoundPlayer, outcome(SoundPlayer)) {
      TriedUpTo(c, outcome, k);
      return true, tried;
    }
    tried := tried + [MediaPlayer];
    if Succeeds(MediaPlayer, outcome(MediaPlayer)) {
      TriedUpTo(c, outcome, k + 1);
      return true, tried;
    }
    tried := tried + [PlaySound];
    if Succeeds(PlaySound, outcome(PlaySound)) {
      TriedUpTo(c, outcome, k + 2);
      return true, tried;
    }
    TriedAll(c, outcome);
    return false, tried;
  }

  /** `_play_audio_file_unix`: playsound, then each command-line player in turn. */
  method PlayUnix(path: Path, outcome: Player -> Outcome) returns (ok: bool, tried: seq<Player>)
    ensures ok <==> FirstSuccess(UnixChain(), outcome).Some?
    ensures tried == Tried(UnixChain(), outcome)
  {
    tried := [PlaySound];
    if Succeeds(PlaySound, outcome(PlaySound)) {
      TriedUpTo(UnixChain(), outcome, 0);
      return true, tried;
    }
    var players := CommandPlayers;
    for i := 0 to |players|
      invariant tried == [PlaySound] + players[..i]
      invariant forall j :: 0 <= j < i ==> !Succeeds(players[j], outcome(players[j]))
    {
      var pl := players[i];
      tried := tried + [pl];
      assert players[..i + 1] == players[..i] + [pl];
      if Succeeds(pl, outcome(pl)) {
        UnixUpTo(outcome, i);
        return true, tried;
      }
    }
    assert players[..|players|] == players;
    UnixAll(outcome);
    return false, tried;
  }

  /** When playsound fails and the `i`-th command-line player is the first to succeed. */
  lemma UnixUpTo(outcome: Player -> Outcome, i: nat)
    requires !Succeeds(PlaySound, outcome(PlaySound))
    requires i < |CommandPlayers| && Succeeds(CommandPlayers[i], outcome(CommandPlayers[i]))
    requires forall j :: 0 <= j < i ==> !Succeeds(CommandPlayers[j], outcome(CommandPlayers[j]))
    ensures FirstSuccess(UnixChain(), outcome) == Some(i + 1)
    ensures Tried(UnixChain(), outcome) == [PlaySound] + CommandPlayers[..i + 1]
  {
    var c := UnixChain();
    forall j | 0 <= j < i + 1
      ensures !Succeeds(c[j], outcome(c[j]))
    {
      if j > 0 {
        assert c[j] == CommandPlayers[j - 1];
      }
    }
    assert c[i + 1] == CommandPlayers[i];
    TriedUpTo(c, outcome, i + 1);
    assert c[..i + 2] == [PlaySound] + CommandPlayers[..i + 1];
  }

  /** When playsound and every command-line player fail. */
  lemma UnixAll(outcome: Player -> Outcome)
    requires !Succeeds(PlaySound, outcome(PlaySound))
    requires forall j :: 0 <= j < |CommandPlayers| ==> !Succeeds(CommandPlayers[j], outcome(CommandPlayers[j]))
    ensures FirstSuccess(UnixChain(), outcome) == None
    ensures Tried(UnixChain(), outcome) == [PlaySound] + CommandPlayers
  {
    var c := UnixChain();
    forall j | 0 <= j < |c|
      ensures !Succeeds(c[j], outcome(c[j]))
    {
      if j > 0 {
        assert c[j] == CommandPlayers[j - 1];
      }
    }
    TriedAll(c, outcome);
  }

  /** A path that does not end in ".wav", in any case, is never handed to winsound. */
  lemma NonWavSkipsWinSound(path: Path, outcome: Player -> Outcome)
    requires !EndsWith(Lower(path), ".wav")
    ensures WinSound !in Tried(WindowsChain(path), outcome)
  {
  }

  /** Upper-case ".WAV" still goes to winsound first. */
  lemma UpperWavTriesWinSound(stem: Path, outcome: Player -> Outcome)
    ensures Tried(WindowsChain(stem + ".WAV"), outcome)[0] == WinSound
  {
    var p := stem + ".WAV";
    LowerAppend(stem, ".WAV");
    assert Lower(".WAV") == ".wav";
    assert Lower(p)[|Lower(p)| - 4..] == ".wav";
  }

  /**
   * Windows playback reports failure exactly when winsound (if tried) raised,
   * SoundPlayer did not exit with 0, and MediaPlayer and playsound both raised.
   */
  lemma WindowsFailsIff(path: Path, outcome: Player -> Outcome)
    ensures FirstSuccess(WindowsChain(path), outcome).None? <==>
      (EndsWith(Lower(path), ".wav") ==> outcome(WinSound) == Raised)
      && outcome(SoundPlayer) != Completed(0)
      && outcome(MediaPlayer) == Raised
      && outcome(PlaySound) == Raised
  {
    var c := WindowsChain(path);
    var k := |c| - 3;
    assert c[k] == SoundPlayer && c[k + 1] == MediaPlayer && c[k + 2] == PlaySound;
    assert EndsWith(Lower(path), ".wav") ==> c[0] == WinSound;
  }

  /**
   * When the earlier Windows players fail, MediaPlayer ends the chain as soon
   * as it does not raise or time out, whatever its exit code.
   */
  lemma MediaPlayerIgnoresExitCode(path: Path, outcome: Player -> Outcome, code: int)
    requires EndsWith(Lower(path), ".wav") ==> outcome(WinSound) == Raised
    requires outcome(SoundPlayer) != Completed(0)
    requires outcome(MediaPlayer) == Completed(code)
    ensures Tried(WindowsChain(path), outcome) == WindowsChain(path)[..|WindowsChain(path)| - 1]
  {
    var c := WindowsChain(path);
    var k := |c| - 2;
    assert c[k] == MediaPlayer;
    forall j | 0 <= j < k
      ensures !Succeeds(c[j], outcome(c[j]))
    {
      assert c[j] == SoundPlayer || c[j] == WinSound;
    }
    TriedUpTo(c, outcome, k);
  }

  /**
   * Unix playback reports failure exactly when playsound raised and every
   * command-line player raised or exited with a non-zero code.
   */
  lemma UnixFailsIff(outcome: Player -> Outcome)
    ensures FirstSuccess(UnixChain(), outcome).None? <==>
      outcome(PlaySound) == Raised
      && forall j :: 0 <= j < |CommandPlayers| ==> outcome(CommandPlayers[j]) != Completed(0)
  {
    var c := UnixChain();
    assert forall j :: 0 <= j < |CommandPlayers| ==> c[j + 1] == CommandPlayers[j];
    assert c[0] == PlaySound;
    if outcome(PlaySound) == Raised && forall j :: 0 <= j < |CommandPlayers| ==> outcome(CommandPlayers[j]) != Completed(0) {
      forall j | 0 <= j < |c|
        ensures !Succeeds(c[j], outcome(c[j]))
      {
        if j > 0 {
          assert c[j] == CommandPlayers[j - 1];
        }
      }
    }
  }

  /** On Linux without playsound or afplay, aplay is the third and last player started. */
  lemma UnixStopsAtAplay(outcome: Player -> Outcome)
    requires outcome(PlaySound) == Raised && outcome(Afplay) == Raised && outcome(Aplay) == Completed(0)
    ensures Tried(UnixChain(), outcome) == [PlaySound, Afplay, Aplay]
  {
    TriedUpTo(UnixChain(), outcome, 2);
  }
}
