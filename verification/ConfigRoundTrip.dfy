/** Loading what was saved restores the settings. */
module ConfigRoundTrip {
  import opened ConfigText
  import opened PeerHistory
  import opened Config
  import opened ConfigSave

  const INT_MAX: int := 0x7fff_ffff
  const INT_MIN: int := -0x8000_0000

  /** A string that its buffer holds and that a line of the file carries unchanged. */
  predicate StorableString(value: string, size: nat) { |value| < size && Clean(value) && '\n' !in value }

  /** Numbers that fit a signed 32-bit int, strings that fit their buffers. */
  predicate Storable(s: Settings) {
    && s.videoBitrate <= INT_MAX && s.videoFramerate <= INT_MAX && s.audioBitrate <= INT_MAX
    && s.networkPort < 0x1_0000 && INT_MIN <= s.displayIndex <= INT_MAX
    && StorableString(s.videoCodec, CODEC_BUFFER) && StorableString(s.lastConnected, CODE_BUFFER)
    && |s.history| == MAX_HISTORY && s.historyCount <= MAX_HISTORY
    && (forall i :: 0 <= i < s.historyCount ==> StorableString(s.history[i], CODE_BUFFER))
  }

  lemma FeedKey(l: Loader, key: string, value: string)
    requires Key(key) && Clean(value)
    ensures Feed(l, KeyLine(key, value) + "\n") == l.(settings := Apply(l.settings, l.section, key, value))
  {
    hide ParseLine, Apply, KeyLine;
    KeyLineParses(key, value);
  }

  lemma FeedSection(l: Loader, name: string)
    requires ']' !in name && |name| < SECTION_BUFFER
    ensures Feed(l, "[" + name + "]" + "\n") == l.(section := name)
  {
    hide Trim, IndexOf, IsTail, IsBlank;
    var t := "[" + name + "]";
    SectionEnds(t);
    TrimIs(t + "\n", t, "\n");
    IndexOfFirst("[" + name, ']', "");
    assert t == ("[" + name) + [']'] + "";
    assert t[1..|name| + 1] == name;
  }

  lemma SectionEnds(t: string)
    requires |t| > 1 && t[0] == '[' && t[|t| - 1] == ']'
    ensures !IsBlank(t[0]) && !IsTail(t[|t| - 1]) && IsTail('\n')
  {
  }

  lemma FeedComment(l: Loader, comment: string)
    requires comment != "" && comment[0] == '#' && !IsTail(comment[|comment| - 1])
    ensures Feed(l, comment + "\n") == l
  {
    TrimIs(comment + "\n", comment, "\n");
  }

  lemma FeedEmpty(l: Loader)
    ensures Feed(l, "" + "\n") == l
  {
    NoBlanks("\n");
    Settled("\n");
    assert "" + "\n" == "\n";
    assert IndexOf("\n", '=') == 1 by { assert IndexOf("", '=') == 0; }
  }

  lemma FeedNext(l: Loader, lines: seq<string>, i: nat)
    requires i < |lines|
    ensures FeedAll(l, lines[i..]) == FeedAll(Feed(l, lines[i] + "\n"), lines[i + 1..])
  {
    hide Feed;
    assert lines[i..][1..] == lines[i + 1..];
  }

  lemma FeedLast(l: Loader, lines: seq<string>)
    ensures FeedAll(l, lines[|lines|..]) == l && lines[0..] == lines
  {
  }

  lemma NumberSurvives(n: nat)
    requires n <= INT_MAX
    ensures Unsigned32(Atoi(Decimal(n))) == n && Clean(Decimal(n))
    ensures n < 0x1_0000 ==> Unsigned16(Atoi(Decimal(n))) == n
    ensures |Decimal(n)| <= 10 && '\n' !in Decimal(n)
  {
    hide Decimal, Atoi, Clean;
    SignedRoundTrip(n);
    SignedIsClean(n);
  }

  lemma SignedIsClean(i: int)
    requires INT_MIN <= i <= INT_MAX
    ensures Clean(Signed(i)) && |Signed(i)| <= 11 && '\n' !in Signed(i)
    ensures i >= 0 ==> |Signed(i)| <= 10
  {
    var n := if i < 0 then -i else i;
    var d := Decimal(n);
    assert Power10(10) == 10000000000;
    DecimalLength(n, 10);
    assert d[0] in d && d[|d| - 1] in d;
  }

  lemma TrueFalseSurvives(b: bool)
    ensures IsTrue(TrueFalse(b)) == b && Clean(TrueFalse(b)) && |TrueFalse(b)| <= 5 && '\n' !in TrueFalse(b)
  {
  }

  lemma VideoKeys()
    ensures Key("bitrate") && Key("framerate") && Key("codec") && Key("display")
  {
  }

  lemma ApplyVideo(s: Settings, value: string)
    ensures Apply(s, "video", "bitrate", value) == s.(videoBitrate := Unsigned32(Atoi(value)))
    ensures Apply(s, "video", "framerate", value) == s.(videoFramerate := Unsigned32(Atoi(value)))
    ensures Apply(s, "video", "codec", value) == s.(videoCodec := CopyInto(value, CODEC_BUFFER))
    ensures Apply(s, "video", "display", value) == s.(displayIndex := Atoi(value))
  {
    assert "framerate" != "bitrate" && "codec" != "bitrate" && "codec" != "framerate";
    assert "display"[0] == 'd' && "bitrate"[0] == 'b';
    assert "display" != "bitrate" && "display" != "framerate" && "display" != "codec";
  }

  function WithVideo(s: Settings, from: Settings): Settings {
    s.(videoBitrate := from.videoBitrate, videoFramerate := from.videoFramerate, videoCodec := from.videoCodec,
       displayIndex := from.displayIndex)
  }

  /** The two comments, the blank line and the section name. */
  lemma VideoHeadRead(l: Loader, s: Settings)
    ensures FeedAll(l, VideoLines(s)) == FeedAll(l.(section := "video"), VideoLines(s)[4..])
  {
    hide Feed, FeedAll, Decimal, Signed, KeyLine;
    var lines := VideoLines(s);
    FeedLast(l, lines);
    FeedNext(l, lines, 0); FeedComment(l, lines[0]);
    FeedNext(l, lines, 1); FeedComment(l, lines[1]);
    FeedNext(l, lines, 2); FeedEmpty(l);
    FeedNext(l, lines, 3); FeedSection(l, "video");
    assert lines[3] == "[" + "video" + "]";
  }

  lemma VideoRead(l: Loader, s: Settings)
    requires Storable(s)
    ensures FeedAll(l, VideoLines(s)) == Loader("video", WithVideo(l.settings, s))
  {
    hide Feed, FeedAll, Apply, Decimal, Signed, Atoi, Key, Clean, KeyLine, Unsigned32, Unsigned16, CopyInto;
    var lines := VideoLines(s);
    VideoHeadRead(l, s);
    var l3 := l.(section := "video");
    VideoKeys();
    NumberSurvives(s.videoBitrate); NumberSurvives(s.videoFramerate);
    SignedRoundTrip(s.displayIndex); SignedIsClean(s.displayIndex);
    var l4 := l3.(settings := l3.settings.(videoBitrate := s.videoBitrate));
    FeedNext(l3, lines, 4); FeedKey(l3, "bitrate", Decimal(s.videoBitrate));
    ApplyVideo(l3.settings, Decimal(s.videoBitrate));
    var l5 := l4.(settings := l4.settings.(videoFramerate := s.videoFramerate));
    FeedNext(l4, lines, 5); FeedKey(l4, "framerate", Decimal(s.videoFramerate));
    ApplyVideo(l4.settings, Decimal(s.videoFramerate));
    var l6 := l5.(settings := l5.settings.(videoCodec := s.videoCodec));
    FeedNext(l5, lines, 6); FeedKey(l5, "codec", s.videoCodec); ApplyVideo(l5.settings, s.videoCodec);
    Fits(s.videoCodec, CODEC_BUFFER);
    var l7 := l6.(settings := l6.settings.(displayIndex := s.displayIndex));
    FeedNext(l6, lines, 7); FeedKey(l6, "display", Signed(s.displayIndex));
    ApplyVideo(l6.settings, Signed(s.displayIndex));
    FeedNext(l7, lines, 8); FeedEmpty(l7);
    FeedLast(l7, lines);
  }

  lemma Fits(value: string, size: nat)
    requires |value| < size
    ensures CopyInto(value, size) == value
  {
  }

  lemma ApplyAudio(s: Settings, value: string)
    ensures Apply(s, "audio", "enabled", value) == s.(audioEnabled := IsTrue(value))
    ensures Apply(s, "audio", "bitrate", value) == s.(audioBitrate := Unsigned32(Atoi(value)))
    ensures Key("enabled") && Key("bitrate")
  {
    assert "audio" != "video" by { assert "audio"[0] == 'a'; }
    assert "bitrate" != "enabled" by { assert "bitrate"[0] == 'b'; }
  }

  lemma AudioRead(l: Loader, s: Settings)
    requires Storable(s)
    ensures FeedAll(l, AudioLines(s))
         == Loader("audio", l.settings.(audioEnabled := s.audioEnabled, audioBitrate := s.audioBitrate))
  {
    hide Feed, FeedAll, Apply, Decimal, Atoi, Key, Clean, KeyLine, Unsigned32, TrueFalse, IsTrue;
    var lines := AudioLines(s);
    FeedLast(l, lines);
    FeedNext(l, lines, 0); FeedSection(l, "audio");
    assert lines[0] == "[" + "audio" + "]";
    var l0 := l.(section := "audio");
    NumberSurvives(s.audioBitrate); TrueFalseSurvives(s.audioEnabled);
    var l1 := l0.(settings := l0.settings.(audioEnabled := s.audioEnabled));
    ApplyAudio(l0.settings, TrueFalse(s.audioEnabled));
    FeedNext(l0, lines, 1); FeedKey(l0, "enabled", TrueFalse(s.audioEnabled));
    var l2 := l1.(settings := l1.settings.(audioBitrate := s.audioBitrate));
    ApplyAudio(l1.settings, Decimal(s.audioBitrate));
    FeedNext(l1, lines, 2); FeedKey(l1, "bitrate", Decimal(s.audioBitrate));
    FeedNext(l2, lines, 3); FeedEmpty(l2);
    FeedLast(l2, lines);
  }

  lemma ApplyNetwork(s: Settings, value: string)
    ensures Apply(s, "network", "port", value) == s.(networkPort := Unsigned16(Atoi(value)))
    ensures Apply(s, "network", "discovery", value) == s.(discoveryEnabled := IsTrue(value))
    ensures Key("port") && Key("discovery")
  {
    assert "network" != "video" && "network" != "audio" && "discovery" != "port";
  }

  lemma NetworkRead(l: Loader, s: Settings)
    requires Storable(s)
    ensures FeedAll(l, NetworkLines(s))
         == Loader("network", l.settings.(networkPort := s.networkPort, discoveryEnabled := s.discoveryEnabled))
  {
    hide Feed, FeedAll, Apply, Decimal, Atoi, Key, Clean, KeyLine, Unsigned16, TrueFalse, IsTrue;
    var lines := NetworkLines(s);
    FeedLast(l, lines);
    FeedNext(l, lines, 0); FeedSection(l, "network");
    assert lines[0] == "[" + "network" + "]";
    var l0 := l.(section := "network");
    NumberSurvives(s.networkPort); TrueFalseSurvives(s.discoveryEnabled);
    var l1 := l0.(settings := l0.settings.(networkPort := s.networkPort));
    ApplyNetwork(l0.settings, Decimal(s.networkPort));
    FeedNext(l0, lines, 1); FeedKey(l0, "port", Decimal(s.networkPort));
    var l2 := l1.(settings := l1.settings.(discoveryEnabled := s.discoveryEnabled));
    ApplyNetwork(l1.settings, TrueFalse(s.discoveryEnabled));
    FeedNext(l1, lines, 2); FeedKey(l1, "discovery", TrueFalse(s.discoveryEnabled));
    FeedNext(l2, lines, 3); FeedEmpty(l2);
    FeedLast(l2, lines);
  }

  lemma PeerKeyFacts(i: nat)
    requires i < MAX_HISTORY
    ensures Key(PeerKey(i)) && |PeerKey(i)| <= 15 && '\n' !in PeerKey(i)
    ensures |PeerKey(i)| >= 5 && PeerKey(i)[..5] == "peer_" && Atoi(PeerKey(i)[5..]) == i
    ensures PeerKey(i) != "last_connected"
  {
    var key := PeerKey(i);
    assert key == "peer_" + Decimal(i);
    assert key[0] == 'p' && "last_connected"[0] == 'l';
    assert key[5..] == Decimal(i);
    assert Decimal(i)[|Decimal(i)| - 1] in Decimal(i);
    SignedRoundTrip(i);
    SignedIsClean(i);
  }

  lemma ApplyPeerEntry(s: Settings, i: nat, value: string)
    requires i < MAX_HISTORY == |s.history| && |value| < CODE_BUFFER
    ensures Apply(s, "peers", PeerKey(i), value)
         == s.(history := s.history[i := value], historyCount := if i >= s.historyCount then i + 1 else s.historyCount)
  {
    hide Atoi, PeerKey, Key;
    PeerKeyFacts(i);
    assert "peers" != "video" by { assert "peers"[0] == 'p'; }
    assert "peers" != "audio" by { assert "peers"[0] == 'p'; }
    assert "peers" != "network";
  }

  lemma ApplyLast(s: Settings, value: string)
    requires |value| < CODE_BUFFER
    ensures Apply(s, "peers", "last_connected", value) == s.(lastConnected := value) && Key("last_connected")
  {
    assert "peers" != "video" by { assert "peers"[0] == 'p'; }
    assert "peers" != "audio" by { assert "peers"[0] == 'p'; }
    assert "peers" != "network";
  }

  /** The history count after reading the first i entries: empty ones are not printed. */
  function Counted(history: seq<string>, i: nat): (count: nat)
    requires i <= |history|
    ensures count <= i
    ensures count == i <==> i == 0 || history[i - 1] != ""
  {
    if i == 0 then 0 else if history[i - 1] != "" then i else Counted(history, i - 1)
  }

  /** A zeroed history with its first n entries filled in. */
  function Filled(history: seq<string>, n: nat): (r: seq<string>)
    requires n <= |history| == MAX_HISTORY
    ensures |r| == MAX_HISTORY
  {
    history[..n] + NO_HISTORY[n..]
  }

  lemma FilledNext(history: seq<string>, i: nat)
    requires i < |history| == MAX_HISTORY
    ensures Filled(history, i + 1) == Filled(history, i)[i := history[i]]
    ensures history[i] == "" ==> Filled(history, i + 1) == Filled(history, i)
    ensures Counted(history, i + 1) == if history[i] != "" then i + 1 else Counted(history, i)
    ensures Filled(history, 0) == NO_HISTORY
  {
    hide Filled;
    FilledIs(history, i, NO_HISTORY);
    Empties(NO_HISTORY, i);
  }

  lemma FilledIs(history: seq<string>, i: nat, empties: seq<string>)
    requires i < |history| == MAX_HISTORY && empties == NO_HISTORY
    ensures Filled(history, i + 1) == Filled(history, i)[i := history[i]]
    ensures history[i] == empties[i] ==> Filled(history, i + 1) == Filled(history, i)
    ensures Filled(history, 0) == empties
  {
    Joins(history, empties, i);
  }

  lemma Empties(empties: seq<string>, i: nat)
    requires empties == NO_HISTORY && i < MAX_HISTORY
    ensures empties[i] == ""
  {
  }

  lemma Joins(history: seq<string>, rest: seq<string>, i: nat)
    requires i < |history| == |rest|
    ensures history[..i + 1] + rest[i + 1..] == (history[..i] + rest[i..])[i := history[i]]
    ensures history[i] == rest[i] ==> history[..i + 1] + rest[i + 1..] == history[..i] + rest[i..]
    ensures history[..0] + rest[0..] == rest
  {
  }

  /** One history line, if the entry is printed at all. */
  lemma EntryRead(l: Loader, s: Settings, i: nat)
    requires Storable(s) && i < s.historyCount && l.section == "peers" && s.history[i] != ""
    requires l.settings.history == Filled(s.history, i) && l.settings.historyCount == Counted(s.history, i)
    ensures Feed(l, KeyLine(PeerKey(i), s.history[i]) + "\n")
         == l.(settings := l.settings.(history := Filled(s.history, i + 1), historyCount := Counted(s.history, i + 1)))
  {
    hide Feed, Apply, Atoi, PeerKey, Key, Clean, KeyLine, Filled;
    PeerKeyFacts(i);
    FilledNext(s.history, i);
    FeedKey(l, PeerKey(i), s.history[i]);
    ApplyPeerEntry(l.settings, i, s.history[i]);
  }

  /** The history printed from entry i on, read into the entries before it. */
  lemma {:induction false} HistoryRead(l: Loader, s: Settings, i: nat)
    requires Storable(s) && i <= s.historyCount && l.section == "peers"
    requires l.settings.history == Filled(s.history, i) && l.settings.historyCount == Counted(s.history, i)
    ensures FeedAll(l, HistoryLines(s.history, s.historyCount, i))
         == l.(settings := l.settings.(history := Filled(s.history, s.historyCount),
                                       historyCount := Counted(s.history, s.historyCount)))
    decreases s.historyCount - i
  {
    hide Feed, PeerKey, Clean, KeyLine, Filled, Counted;
    if i < s.historyCount {
      FilledNext(s.history, i);
      var lines := HistoryLines(s.history, s.historyCount, i);
      var rest := HistoryLines(s.history, s.historyCount, i + 1);
      var l1 := l.(settings := l.settings.(history := Filled(s.history, i + 1),
                                           historyCount := Counted(s.history, i + 1)));
      if s.history[i] == "" {
        assert lines == rest;
      } else {
        assert lines[0] == KeyLine(PeerKey(i), s.history[i]) && lines[1..] == rest;
        EntryRead(l, s, i);
      }
      HistoryRead(l1, s, i + 1);
    }
  }

  lemma PeersRead(l: Loader, s: Settings)
    requires Storable(s)
    requires l.settings.history == NO_HISTORY && l.settings.historyCount == 0 && l.settings.lastConnected == ""
    ensures FeedAll(l, PeerLines(s)).settings
         == l.settings.(history := Filled(s.history, s.historyCount),
                        historyCount := Counted(s.history, s.historyCount), lastConnected := s.lastConnected)
  {
    hide Feed, Apply, Key, Clean, KeyLine, HistoryLines, Filled;
    var l0 := l.(section := "peers");
    var named := if s.lastConnected != "" then [KeyLine("last_connected", s.lastConnected)] else [];
    var history := HistoryLines(s.history, s.historyCount, 0);
    assert PeerLines(s) == ["[peers]"] + (named + history);
    FeedSection(l, "peers");
    assert "[peers]" == "[" + "peers" + "]";
    assert PeerLines(s)[0] == "[peers]" && PeerLines(s)[1..] == named + history;
    FeedAppend(l0, named, history);
    var l1 := l0.(settings := l0.settings.(lastConnected := s.lastConnected));
    if s.lastConnected != "" {
      ApplyLast(l0.settings, s.lastConnected);
      FeedKey(l0, "last_connected", s.lastConnected);
      assert named[1..] == [];
    }
    assert FeedAll(l0, named) == l1;
    FilledNext(s.history, 0);
    HistoryRead(l1, s, 0);
  }

  lemma {:induction false} HistoryReadable(s: Settings, i: nat)
    requires Storable(s) && i <= s.historyCount
    ensures forall line :: line in HistoryLines(s.history, s.historyCount, i) ==> Readable(line)
    decreases s.historyCount - i
  {
    hide PeerKey, Key, Clean, Atoi;
    if i < s.historyCount {
      PeerKeyFacts(i);
      HistoryReadable(s, i + 1);
    }
  }

  predicate AllReadable(lines: seq<string>) { forall line :: line in lines ==> Readable(line) }

  lemma KeyLineReadable(key: string, value: string)
    requires |key| < 64 && '\n' !in key && |value| < 160 && '\n' !in value
    ensures Readable(KeyLine(key, value))
  {
  }

  lemma TitleReadable()
    ensures Readable("# RootStream Configuration") && Readable("") && Readable("[video]")
  {
  }

  lemma WarningReadable()
    ensures Readable("# Generated automatically - edit with caution")
  {
    var a, b := "# Generated automatically", " - edit with caution";
    assert Readable(a) && Readable(b);
    assert a + b == "# Generated automatically - edit with caution";
  }

  lemma VideoReadable(s: Settings)
    requires Storable(s)
    ensures AllReadable(VideoLines(s))
  {
    hide KeyLine, Decimal, Signed, Clean, Atoi, Unsigned32, Unsigned16;
    NumberSurvives(s.videoBitrate); NumberSurvives(s.videoFramerate); SignedIsClean(s.displayIndex);
    KeyLineReadable("bitrate", Decimal(s.videoBitrate));
    KeyLineReadable("framerate", Decimal(s.videoFramerate));
    KeyLineReadable("codec", s.videoCodec);
    KeyLineReadable("display", Signed(s.displayIndex));
    TitleReadable(); WarningReadable();
  }

  lemma AudioReadable(s: Settings)
    requires Storable(s)
    ensures AllReadable(AudioLines(s))
  {
    hide KeyLine, Decimal, TrueFalse, IsTrue, Clean, Atoi, Unsigned32, Unsigned16;
    NumberSurvives(s.audioBitrate); TrueFalseSurvives(s.audioEnabled);
    KeyLineReadable("enabled", TrueFalse(s.audioEnabled));
    KeyLineReadable("bitrate", Decimal(s.audioBitrate));
  }

  lemma NetworkReadable(s: Settings)
    requires Storable(s)
    ensures AllReadable(NetworkLines(s))
  {
    hide KeyLine, Decimal, TrueFalse, IsTrue, Clean, Atoi, Unsigned32, Unsigned16;
    NumberSurvives(s.networkPort); TrueFalseSurvives(s.discoveryEnabled);
    KeyLineReadable("port", Decimal(s.networkPort));
    KeyLineReadable("discovery", TrueFalse(s.discoveryEnabled));
  }

  lemma PeersReadable(s: Settings)
    requires Storable(s)
    ensures AllReadable(PeerLines(s))
  {
    hide KeyLine, HistoryLines, Clean;
    HistoryReadable(s, 0);
    KeyLineReadable("last_connected", s.lastConnected);
  }

  /** Every printed line fits the reader's line buffer. */
  lemma LinesReadable(s: Settings)
    requires Storable(s)
    ensures AllReadable(Lines(s))
  {
    hide Readable, VideoLines, AudioLines, NetworkLines, PeerLines, Storable;
    VideoReadable(s); AudioReadable(s); NetworkReadable(s); PeersReadable(s);
  }

  /**
   * Saving and loading into a zeroed structure restores every field, the history and the last
   * connected peer; history slots past the count are empty. The count itself is restored exactly
   * when the last counted entry is not an empty string.
   */
  lemma {:induction false} ConfigRoundTrips(s: Settings)
    requires Storable(s)
    ensures var loaded := Load(ZEROED, Saved(s));
            && loaded == s.(history := s.history[..s.historyCount] + NO_HISTORY[s.historyCount..],
                            historyCount := loaded.historyCount)
            && (loaded.historyCount == s.historyCount <==> s.historyCount == 0 || s.history[s.historyCount - 1] != "")
  {
    hide Feed, FeedAll, VideoLines, AudioLines, NetworkLines, PeerLines, Readable, Text;
    var l := Loader("", WithDefaults(ZEROED));
    LinesReadable(s);
    LoadsLines(l, Lines(s));
    FeedAppend(l, VideoLines(s) + AudioLines(s) + NetworkLines(s), PeerLines(s));
    FeedAppend(l, VideoLines(s) + AudioLines(s), NetworkLines(s));
    FeedAppend(l, VideoLines(s), AudioLines(s));
    VideoRead(l, s);
    var l1 := Loader("video", WithVideo(l.settings, s));
    AudioRead(l1, s);
    var l2 := Loader("audio", l1.settings.(audioEnabled := s.audioEnabled, audioBitrate := s.audioBitrate));
    NetworkRead(l2, s);
    var l3 := Loader("network", l2.settings.(networkPort := s.networkPort, discoveryEnabled := s.discoveryEnabled));
    PeersRead(l3, s);
  }

  /**
   * The peer list across a restart: after any additions of codes that a line of the file carries,
   * saving and loading gives the same list, that is the distinct codes, most recent first, cut to 32.
   */
  lemma {:induction false} HistorySurvives(s: Settings, codes: seq<string>)
    requires Storable(s) && s.history[..s.historyCount] == After(codes)
    requires forall c :: c in codes ==> 0 < |c| < CODE_BUFFER
    ensures var loaded := Load(ZEROED, Saved(s));
            && loaded.historyCount <= |loaded.history|
            && loaded.history[..loaded.historyCount] == After(codes) == Capped(Recent(codes))
            && loaded.lastConnected == s.lastConnected
  {
    hide Load, Saved, Recent, After;
    ConfigRoundTrips(s);
    HistoryIsLru(codes);
    NoneEmpty(codes);
    var count := s.historyCount;
    if count > 0 { assert s.history[count - 1] == After(codes)[count - 1]; }
    assert (s.history[..count] + NO_HISTORY[count..])[..count] == s.history[..count];
  }

  lemma NoneEmpty(codes: seq<string>)
    requires forall c :: c in codes ==> 0 < |c| < CODE_BUFFER
    ensures forall i :: 0 <= i < |After(codes)| ==> After(codes)[i] != ""
  {
    HistoryIsLru(codes);
    RecentDistinct(codes);
    forall i | 0 <= i < |After(codes)| ensures After(codes)[i] != "" {
      assert After(codes)[i] == Recent(codes)[i] && Recent(codes)[i] in codes;
    }
  }
}
