/** Saving settings to config.ini and loading them back (src/config.c:97-305). */
module Config {
  import opened ConfigText
  import opened PeerHistory

  const CODEC_BUFFER: nat := 16
  const SECTION_BUFFER: nat := 64

  datatype Settings = Settings(
    videoBitrate: nat, videoFramerate: nat, videoCodec: string, displayIndex: int,
    audioEnabled: bool, audioBitrate: nat, networkPort: nat, discoveryEnabled: bool,
    history: seq<string>, historyCount: nat, lastConnected: string)

  /** config_init_defaults; the history entries themselves are left as they are. */
  function WithDefaults(s: Settings): Settings {
    Settings(10000000, 60, "h264", 0, true, 64000, 9876, true, s.history, 0, "")
  }

  /** A settings structure that was zeroed before loading. */
  const ZEROED := Settings(0, 0, "", 0, false, 0, 0, false, NO_HISTORY, 0, "")
  const NO_HISTORY: seq<string> :=
    ["", "", "", "", "", "", "", "", "", "", "", "", "", "", "", "",
     "", "", "", "", "", "", "", "", "", "", "", "", "", "", "", ""]

  /** strncpy into a zeroed buffer of the given size. */
  function CopyInto(value: string, size: nat): string
    requires size > 0
  {
    if |value| < size then value else value[..size - 1]
  }

  /** The place of the first c in s, or |s|. */
  function IndexOf(s: string, c: char): (i: nat)
    ensures i <= |s| && (i < |s| ==> s[i] == c) && c !in s[..i]
  {
    if s == "" || s[0] == c then 0 else
    var rest := IndexOf(s[1..], c);
    assert s[..rest + 1] == [s[0]] + s[1..][..rest];
    rest + 1
  }

  datatype Item = Skipped | Section(name: string) | Entry(key: string, value: string)

  /** What one line of the file means, as fgets returned it. */
  function ParseLine(line: string): Item {
    ParseTrimmed(Trim(line))
  }

  function ParseTrimmed(t: string): Item {
    if t == "" || t[0] == '#' || t[0] == ';' then Skipped
    else if t[0] == '[' then
      var end := IndexOf(t, ']');
      if end == |t| then Skipped else Section(CopyInto(t[1..end], SECTION_BUFFER))
    else
      var eq := IndexOf(t, '=');
      if eq == |t| then Skipped else Entry(Trim(t[..eq]), Trim(t[eq + 1..]))
  }

  function IsTrue(value: string): bool { value == "true" || value == "1" }
  function Unsigned32(i: int): nat { i % 0x1_0000_0000 }
  function Unsigned16(i: int): nat { i % 0x1_0000 }

  /** One key = value entry; unknown sections and keys change nothing. */
  function Apply(s: Settings, section: string, key: string, value: string): Settings {
    if section == "video" then
      if key == "bitrate" then s.(videoBitrate := Unsigned32(Atoi(value)))
      else if key == "framerate" then s.(videoFramerate := Unsigned32(Atoi(value)))
      else if key == "codec" then s.(videoCodec := CopyInto(value, CODEC_BUFFER))
      else if key == "display" then s.(displayIndex := Atoi(value))
      else s
    else if section == "audio" then
      if key == "enabled" then s.(audioEnabled := IsTrue(value))
      else if key == "bitrate" then s.(audioBitrate := Unsigned32(Atoi(value)))
      else s
    else if section == "network" then
      if key == "port" then s.(networkPort := Unsigned16(Atoi(value)))
      else if key == "discovery" then s.(discoveryEnabled := IsTrue(value))
      else s
    else if section == "peers" then
      if key == "last_connected" then s.(lastConnected := CopyInto(value, CODE_BUFFER))
      else if |key| >= 5 && key[..5] == "peer_" then ApplyPeer(s, Atoi(key[5..]), value)
      else s
    else s
  }

  function ApplyPeer(s: Settings, index: int, value: string): Settings {
    if 0 <= index < MAX_HISTORY && index < |s.history|
    then s.(history := s.history[index := CopyInto(value, CODE_BUFFER)],
            historyCount := if index >= s.historyCount then index + 1 else s.historyCount)
    else s
  }

  /** The state of the reading loop. */
  datatype Loader = Loader(section: string, settings: Settings)

  function Feed(l: Loader, line: string): Loader { Follow(l, ParseLine(line)) }

  function Follow(l: Loader, item: Item): Loader {
    match item
    case Skipped => l
    case Section(name) => l.(section := name)
    case Entry(key, value) => l.(settings := Apply(l.settings, l.section, key, value))
  }

  /** config_load_ini on the text of an existing file. */
  function LoadFrom(l: Loader, text: string): Loader
    decreases |text|
  {
    if text == "" then l else
    var end := LineEnd(text, 0);
    LoadFrom(Feed(l, text[..end]), text[end..])
  }

  function Load(before: Settings, text: string): Settings {
    LoadFrom(Loader("", WithDefaults(before)), text).settings
  }

  /** settings_t in place, with its fixed array of history entries. */
  class SettingsStore {
    var videoBitrate: nat
    var videoFramerate: nat
    var videoCodec: string
    var displayIndex: int
    var audioEnabled: bool
    var audioBitrate: nat
    var networkPort: nat
    var discoveryEnabled: bool
    const history: array<string>
    var historyCount: nat
    var lastConnected: string

    function Value(): Settings
      reads this, history
    {
      Settings(videoBitrate, videoFramerate, videoCodec, displayIndex, audioEnabled, audioBitrate,
               networkPort, discoveryEnabled, history[..], historyCount, lastConnected)
    }

    constructor ()
      ensures Value() == ZEROED && history.Length == MAX_HISTORY && fresh(history)
    {
      videoBitrate, videoFramerate, videoCodec, displayIndex := 0, 0, "", 0;
      audioEnabled, audioBitrate, networkPort, discoveryEnabled := false, 0, 0, false;
      history := new string[MAX_HISTORY](_ => "");
      historyCount, lastConnected := 0, "";
      new;
      assert history[..] == NO_HISTORY;
    }

    method SetVideo(key: string, value: string)
      modifies this
      ensures Value() == Apply(old(Value()), "video", key, value)
    {
      if key == "bitrate" {
        videoBitrate := Unsigned32(Atoi(value));
      } else if key == "framerate" {
        videoFramerate := Unsigned32(Atoi(value));
      } else if key == "codec" {
        videoCodec := CopyInto(value, CODEC_BUFFER);
      } else if key == "display" {
        displayIndex := Atoi(value);
      }
    }

    method SetPeers(key: string, value: string)
      requires history.Length == MAX_HISTORY
      modifies this, history
      ensures Value() == Apply(old(Value()), "peers", key, value)
    {
      if key == "last_connected" {
        lastConnected := CopyInto(value, CODE_BUFFER);
      } else if |key| >= 5 && key[..5] == "peer_" {
        var index := Atoi(key[5..]);
        if 0 <= index < MAX_HISTORY {
          history[index] := CopyInto(value, CODE_BUFFER);
          assert history[..] == old(history[..])[index := CopyInto(value, CODE_BUFFER)];
          if index >= historyCount { historyCount := index + 1; }
        }
      }
    }

    /** The chain of sections and keys. */
    method SetEntry(section: string, key: string, value: string)
      requires history.Length == MAX_HISTORY
      modifies this, history
      ensures Value() == Apply(old(Value()), section, key, value)
    {
      if section == "video" {
        SetVideo(key, value);
      } else if section == "audio" {
        if key == "enabled" {
          audioEnabled := IsTrue(value);
        } else if key == "bitrate" {
          audioBitrate := Unsigned32(Atoi(value));
        }
      } else if section == "network" {
        if key == "port" {
          networkPort := Unsigned16(Atoi(value));
        } else if key == "discovery" {
          discoveryEnabled := IsTrue(value);
        }
      } else if section == "peers" {
        SetPeers(key, value);
      }
    }

    /** config_load_ini: defaults first, then line by line. */
    method LoadIni(text: string)
      requires history.Length == MAX_HISTORY
      modifies this, history
      ensures Value() == Load(old(Value()), text)
    {
      hide Apply, ParseLine, LineEnd;
      videoBitrate, videoFramerate, videoCodec, displayIndex := 10000000, 60, "h264", 0;
      audioEnabled, audioBitrate, networkPort, discoveryEnabled := true, 64000, 9876, true;
      historyCount, lastConnected := 0, "";
      var section := "";
      var rest := text;
      assert Value() == WithDefaults(old(Value()));
      while rest != ""
        invariant LoadFrom(Loader(section, Value()), rest) == LoadFrom(Loader("", WithDefaults(old(Value()))), text)
        decreases |rest|
      {
        var end := LineEnd(rest, 0);
        var item := ParseLine(rest[..end]);
        rest := rest[end..];
        match item {
          case Skipped =>
          case Section(name) => section := name;
          case Entry(key, value) => SetEntry(section, key, value);
        }
      }
    }
  }
}
