/** Printing config.ini, and the round trip through the parser (src/config.c:259-305). */
module ConfigSave {
  import opened ConfigText
  import opened Config

  function KeyLine(key: string, value: string): string { key + " = " + value }

  function TrueFalse(b: bool): string { if b then "true" else "false" }

  function PeerKey(i: nat): string { "peer_" + Signed(i) }

  /** The peer_N lines from entry i on; empty entries are left out. */
  function HistoryLines(history: seq<string>, count: nat, i: nat): seq<string>
    requires count <= |history|
    decreases count - i
  {
    if i >= count then []
    else (if history[i] != "" then [KeyLine(PeerKey(i), history[i])] else []) + HistoryLines(history, count, i + 1)
  }

  function VideoLines(s: Settings): seq<string> {
    ["# RootStream Configuration", "# Generated automatically - edit with caution", "", "[video]",
     KeyLine("bitrate", Decimal(s.videoBitrate)), KeyLine("framerate", Decimal(s.videoFramerate)),
     KeyLine("codec", s.videoCodec), KeyLine("display", Signed(s.displayIndex)), ""]
  }

  function AudioLines(s: Settings): seq<string> {
    ["[audio]", KeyLine("enabled", TrueFalse(s.audioEnabled)), KeyLine("bitrate", Decimal(s.audioBitrate)), ""]
  }

  function NetworkLines(s: Settings): seq<string> {
    ["[network]", KeyLine("port", Decimal(s.networkPort)), KeyLine("discovery", TrueFalse(s.discoveryEnabled)), ""]
  }

  function PeerLines(s: Settings): seq<string>
    requires s.historyCount <= |s.history|
  {
    ["[peers]"] + (if s.lastConnected != "" then [KeyLine("last_connected", s.lastConnected)] else [])
    + HistoryLines(s.history, s.historyCount, 0)
  }

  function Lines(s: Settings): seq<string>
    requires s.historyCount <= |s.history|
  {
    VideoLines(s) + AudioLines(s) + NetworkLines(s) + PeerLines(s)
  }

  function Text(lines: seq<string>): string {
    if lines == [] then "" else lines[0] + "\n" + Text(lines[1..])
  }

  /** The text config_save_ini writes. */
  function Saved(s: Settings): string
    requires s.historyCount <= |s.history|
  {
    Text(Lines(s))
  }

  lemma {:induction false} TextAppend(a: seq<string>, b: seq<string>)
    ensures Text(a + b) == Text(a) + Text(b)
  {
    if a == [] {
      assert a + b == b;
    } else {
      TextAppend(a[1..], b);
      assert (a + b)[1..] == a[1..] + b;
      assert a[0] + "\n" + (Text(a[1..]) + Text(b)) == (a[0] + "\n" + Text(a[1..])) + Text(b);
    }
  }

  /** The printing loop over the history. */
  method SaveHistory(history: seq<string>, count: nat) returns (text: string)
    requires count <= |history|
    ensures text == Text(HistoryLines(history, count, 0))
  {
    text := "";
    var i := 0;
    while i < count
      invariant i <= count
      invariant Text(HistoryLines(history, count, 0)) == text + Text(HistoryLines(history, count, i))
    {
      if history[i] != "" {
        var line := KeyLine(PeerKey(i), history[i]);
        assert HistoryLines(history, count, i) == [line] + HistoryLines(history, count, i + 1);
        OneMoreLine(text, line, HistoryLines(history, count, i + 1));
        text := text + (line + "\n");
      } else {
        assert HistoryLines(history, count, i) == HistoryLines(history, count, i + 1);
      }
      i := i + 1;
    }
  }

  lemma OneMoreLine(text: string, line: string, rest: seq<string>)
    ensures text + Text([line] + rest) == (text + (line + "\n")) + Text(rest)
  {
    assert ([line] + rest)[1..] == rest;
  }

  function FeedAll(l: Loader, lines: seq<string>): Loader
    decreases |lines|
  {
    if lines == [] then l else FeedAll(Feed(l, lines[0] + "\n"), lines[1..])
  }

  lemma {:induction false} FeedAppend(l: Loader, a: seq<string>, b: seq<string>)
    ensures FeedAll(l, a + b) == FeedAll(FeedAll(l, a), b)
    decreases |a|
  {
    hide Feed;
    if a == [] {
      assert a + b == b;
    } else {
      assert (a + b)[1..] == a[1..] + b;
      FeedAppend(Feed(l, a[0] + "\n"), a[1..], b);
    }
  }

  predicate Readable(line: string) { '\n' !in line && |line| < 255 }

  /** The file is read back as the lines that were printed. */
  lemma {:induction false} LoadsLines(l: Loader, lines: seq<string>)
    requires forall line :: line in lines ==> Readable(line)
    ensures LoadFrom(l, Text(lines)) == FeedAll(l, lines)
    decreases |lines|
  {
    hide Feed;
    if lines != [] {
      var line, rest := lines[0], Text(lines[1..]);
      assert line in lines;
      LineIsRead(line, rest, 0);
      var text := line + "\n" + rest;
      assert text[..|line| + 1] == line + "\n" && text[|line| + 1..] == rest;
      LoadsLines(Feed(l, line + "\n"), lines[1..]);
    }
  }

  /** A key that the parser finds again before " = ". */
  predicate Key(key: string) {
    && key != "" && '=' !in key && !IsBlank(key[0]) && !IsTail(key[|key| - 1])
    && key[0] != '#' && key[0] != ';' && key[0] != '['
  }

  lemma {:induction false} IndexOfFirst(a: string, c: char, b: string)
    requires c !in a
    ensures IndexOf(a + [c] + b, c) == |a|
  {
    if a != "" {
      assert a[0] in a;
      IndexOfFirst(a[1..], c, b);
      assert (a + [c] + b)[1..] == a[1..] + [c] + b;
    }
  }

  lemma TrimIs(s: string, kept: string, tail: string)
    requires s == kept + tail && kept != "" && !IsBlank(kept[0]) && !IsTail(kept[|kept| - 1])
    requires forall i :: 0 <= i < |tail| ==> IsTail(tail[i])
    ensures Trim(s) == kept
  {
    NoBlanks(s);
    forall i | |kept| <= i < |s| ensures IsTail(s[i]) { assert s[i] == tail[i - |kept|]; }
    DropIs(s, |kept|);
    assert s[..|kept|] == kept;
  }

  lemma TrimLeading(value: string)
    requires Clean(value)
    ensures Trim(" " + value) == value
  {
    SkipMore(" " + value, 1);
    assert (" " + value)[1..] == value;
    NoBlanks(value);
    Settled(value);
  }

  /** A printed key and value are found again: the first '=' is the one after the key. */
  lemma KeyLineParses(key: string, value: string)
    requires Key(key) && Clean(value)
    ensures ParseLine(KeyLine(key, value) + "\n") == Entry(key, value)
  {
    hide Trim, IndexOf, ParseTrimmed, IsTail, IsBlank;
    var line, front := KeyLine(key, value), key + " ";
    KeyLineEnds(key, value);
    if value == "" {
      var t := key + " =";
      TrimIs(line + "\n", t, " \n");
      IndexOfFirst(front, '=', "");
      assert t == front + ['='] + "";
      EntryOf(t, key, "");
    } else {
      TrimIs(line + "\n", line, "\n");
      IndexOfFirst(front, '=', " " + value);
      assert line == front + ['='] + (" " + value);
      EntryOf(line, key, value);
    }
  }

  /** What the trims need to know about a printed line. */
  lemma KeyLineEnds(key: string, value: string)
    requires Key(key) && Clean(value)
    ensures '=' !in key + " "
    ensures value == "" ==> KeyLine(key, value) + "\n" == (key + " =") + " \n"
    ensures !IsBlank((key + " =")[0]) && !IsTail('=') && !IsBlank(KeyLine(key, value)[0])
    ensures value != "" ==> !IsTail(KeyLine(key, value)[|KeyLine(key, value)| - 1])
    ensures IsTail(' ') && IsTail('\n')
  {
  }

  lemma EntryOf(t: string, key: string, value: string)
    requires Key(key) && Clean(value)
    requires t == (key + " ") + ['='] + (if value == "" then "" else " " + value)
    requires IndexOf(t, '=') == |key| + 1
    ensures ParseTrimmed(t) == Entry(key, value)
  {
    assert t[0] == key[0];
    assert t[..|key| + 1] == key + " ";
    TrimIs(key + " ", key, " ");
    assert t[|key| + 2..] == if value == "" then "" else " " + value;
    if value == "" { NoBlanks(""); Settled(""); } else { TrimLeading(value); }
  }

  lemma TrimmedEnds(s: string)
    ensures Trim(s) == "" || !IsBlank(Trim(s)[0])
    ensures |Trim(s)| <= |s|
    ensures s != "" && IsBlank(s[0]) ==> |Trim(s)| < |s|
  {
  }

  /** A line that ends in blanks loses them before it is split. */
  lemma TailLost(line: string)
    requires |line| > 1 && !IsBlank(line[0]) && IsTail(line[|line| - 1])
    ensures Trim(line + "\n") < line
  {
    hide DropTail;
    NoBlanks(line + "\n");
    DropMore(line + "\n", |line| - 1);
    assert (line + "\n")[..|line| - 1] == line[..|line| - 1];
  }

  /** A value comes back from its line exactly when it neither begins nor ends with a blank. */
  lemma ValueSurvivesIff(key: string, value: string)
    requires Key(key)
    ensures ParseLine(KeyLine(key, value) + "\n") == Entry(key, value) <==> Clean(value)
  {
    hide Trim, IsTail, IsBlank;
    if Clean(value) {
      KeyLineParses(key, value);
    } else if IsBlank(value[0]) {
      var t := Trim(KeyLine(key, value) + "\n");
      TrimmedEnds(t[IndexOf(t, '=') + (if IndexOf(t, '=') < |t| then 1 else 0)..]);
    } else {
      var line := KeyLine(key, value);
      assert line[0] == key[0] && line[|line| - 1] == value[|value| - 1];
      TailLost(line);
      LosesValue(key, value, Trim(line + "\n"));
    }
  }

  /** What the lines of a file mean, one by one. */
  function ItemsOf(text: string): (items: seq<Item>)
    ensures items == [] <==> text == ""
    decreases |text|
  {
    if text == "" then [] else
    var end := LineEnd(text, 0);
    [ParseLine(text[..end])] + ItemsOf(text[end..])
  }

  function FollowAll(l: Loader, items: seq<Item>): Loader
    decreases |items|
  {
    if items == [] then l else FollowAll(Follow(l, items[0]), items[1..])
  }

  /** Loading a file is following its items. */
  lemma {:induction false} LoadsItems(l: Loader, text: string)
    ensures LoadFrom(l, text) == FollowAll(l, ItemsOf(text))
    decreases |text|
  {
    hide ParseLine, LineEnd, Follow;
    if text != "" {
      var end := LineEnd(text, 0);
      LoadsItems(Feed(l, text[..end]), text[end..]);
      assert ItemsOf(text)[1..] == ItemsOf(text[end..]);
    }
  }

  /** A line is read whole exactly when it holds no newline and fits the reader's buffer. */
  lemma {:induction false} ReadWholeIff(line: string, i: nat)
    requires i <= |line| && i <= 254
    ensures LineEnd(line + "\n", i) == |line| + 1 <==> |line| < 255 && '\n' !in line[i..]
    decreases |line| - i
  {
    var text := line + "\n";
    if i < |line| {
      assert line[i..] == [line[i]] + line[i + 1..];
      if line[i] != '\n' && i < 254 { ReadWholeIff(line, i + 1); }
      if line[i] != '\n' && i == 254 { assert LineEnd(text, 255) == 255; }
    }
  }

  /**
   * A printed entry comes back from the file as this one entry exactly when the value neither begins
   * nor ends with a blank and holds no newline, and the line fits the reader's buffer.
   */
  lemma {:induction false} EntrySurvivesIff(key: string, value: string)
    requires Key(key) && '\n' !in key
    ensures ItemsOf(KeyLine(key, value) + "\n") == [Entry(key, value)]
       <==> Clean(value) && '\n' !in value && |KeyLine(key, value)| < 255
  {
    hide ParseLine, LineEnd, Clean, Key;
    var line := KeyLine(key, value);
    var text := line + "\n";
    ReadWholeIff(line, 0);
    ValueSurvivesIff(key, value);
    NewlineOnlyInValue(key, value);
    assert line[0..] == line;
    var end := LineEnd(text, 0);
    if end == |text| {
      assert text[..end] == text && text[end..] == "";
      assert ItemsOf(text) == [ParseLine(text)];
    } else {
      assert |ItemsOf(text)| > 1;
    }
  }

  lemma NewlineOnlyInValue(key: string, value: string)
    requires '\n' !in key
    ensures '\n' in KeyLine(key, value) <==> '\n' in value
  {
  }

  lemma LosesValue(key: string, value: string, t: string)
    requires Key(key) && value != "" && t < KeyLine(key, value)
    ensures ParseTrimmed(t) != Entry(key, value)
  {
    hide Trim, IsTail, IsBlank;
    var line, eq := KeyLine(key, value), IndexOf(t, '=');
    assert line == (key + " ") + ['='] + (" " + value);
    if eq < |t| {
      assert line[|key| + 1] == '=' && line[|key| + 2] == ' ';
      assert t[eq] == line[eq];
      assert eq >= |key|;
      assert eq == |key| + 1;
      TrimmedEnds(t[eq + 1..]);
      SpaceIsBlank();
    }
  }

  lemma SpaceIsBlank()
    ensures IsBlank(' ')
  {
  }

  /** Printing one more line of a list of lines. */
  method Print(text: string, line: string, ghost lines: seq<string>, ghost n: nat) returns (more: string)
    requires n < |lines| && line == lines[n] && text == Text(lines[..n])
    ensures more == Text(lines[..n + 1])
  {
    TextAppend(lines[..n], [line]);
    assert lines[..n] + [line] == lines[..n + 1];
    assert Text([line]) == line + "\n" by { assert Text([]) == ""; }
    more := text + (line + "\n");
  }

  lemma NothingPrinted(lines: seq<string>)
    ensures Text(lines[..0]) == "" && lines[..|lines|] == lines
  {
  }

  method SaveVideo(s: Settings) returns (text: string)
    ensures text == Text(VideoLines(s))
  {
    hide Text, Decimal, Signed, KeyLine;
    ghost var lines := VideoLines(s);
    NothingPrinted(lines);
    text := Print("", "# RootStream Configuration", lines, 0);
    text := Print(text, "# Generated automatically - edit with caution", lines, 1);
    text := Print(text, "", lines, 2);
    text := Print(text, "[video]", lines, 3);
    text := Print(text, KeyLine("bitrate", Decimal(s.videoBitrate)), lines, 4);
    text := Print(text, KeyLine("framerate", Decimal(s.videoFramerate)), lines, 5);
    text := Print(text, KeyLine("codec", s.videoCodec), lines, 6);
    text := Print(text, KeyLine("display", Signed(s.displayIndex)), lines, 7);
    text := Print(text, "", lines, 8);
  }

  method SaveAudio(s: Settings) returns (text: string)
    ensures text == Text(AudioLines(s))
  {
    hide Text, Decimal, TrueFalse, KeyLine;
    ghost var lines := AudioLines(s);
    NothingPrinted(lines);
    text := Print("", "[audio]", lines, 0);
    text := Print(text, KeyLine("enabled", TrueFalse(s.audioEnabled)), lines, 1);
    text := Print(text, KeyLine("bitrate", Decimal(s.audioBitrate)), lines, 2);
    text := Print(text, "", lines, 3);
  }

  method SaveNetwork(s: Settings) returns (text: string)
    ensures text == Text(NetworkLines(s))
  {
    hide Text, Decimal, TrueFalse, KeyLine;
    ghost var lines := NetworkLines(s);
    NothingPrinted(lines);
    text := Print("", "[network]", lines, 0);
    text := Print(text, KeyLine("port", Decimal(s.networkPort)), lines, 1);
    text := Print(text, KeyLine("discovery", TrueFalse(s.discoveryEnabled)), lines, 2);
    text := Print(text, "", lines, 3);
  }

  method SavePeers(s: Settings) returns (text: string)
    requires s.historyCount <= |s.history|
    ensures text == Text(PeerLines(s))
  {
    hide Text, KeyLine, HistoryLines;
    ghost var lines := PeerLines(s);
    ghost var n := if s.lastConnected != "" then 2 else 1;
    NothingPrinted(lines);
    text := Print("", "[peers]", lines, 0);
    if s.lastConnected != "" {
      text := Print(text, KeyLine("last_connected", s.lastConnected), lines, 1);
    }
    var history := SaveHistory(s.history, s.historyCount);
    TextAppend(lines[..n], HistoryLines(s.history, s.historyCount, 0));
    assert lines == lines[..n] + HistoryLines(s.history, s.historyCount, 0);
    text := text + history;
  }

  /** config_save_ini, section by section. */
  method SaveIni(s: Settings) returns (text: string)
    requires s.historyCount <= |s.history|
    ensures text == Saved(s)
  {
    hide Text, VideoLines, AudioLines, NetworkLines, PeerLines;
    var video := SaveVideo(s);
    var audio := SaveAudio(s);
    var network := SaveNetwork(s);
    var peers := SavePeers(s);
    TextAppend(VideoLines(s), AudioLines(s));
    TextAppend(VideoLines(s) + AudioLines(s), NetworkLines(s));
    TextAppend(VideoLines(s) + AudioLines(s) + NetworkLines(s), PeerLines(s));
    text := video + audio + network + peers;
  }
}
